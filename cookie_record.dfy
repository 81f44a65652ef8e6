/**
 * The cookie record `cookies::cookie_t` of include/avhttp/cookie.hpp and the two
 * orders on its expiry that the jar uses.
 */
module CookieRecord {

  /**
   * The `expires` field: boost's `not_a_date_time` (a session cookie, which never
   * expires) or a concrete time, counted in seconds since the Unix epoch.
   */
  datatype Expiry = Session | At(time: int)

  /** One cookie: a default-constructed `cookie_t` has empty strings, no expiry and both flags off. */
  datatype Cookie = Cookie(
    name: string,
    value: string,
    domain: string,
    path: string,
    expires: Expiry,
    httpOnly: bool,
    secure: bool)

  /** A default-constructed record whose name and value are then assigned. */
  function NamedCookie(name: string, value: string): Cookie {
    Cookie(name, value, "", "", Session, false, false)
  }

  /** The identity of a cookie slot: the (name, domain, path) triple. */
  predicate SameKey(a: Cookie, b: Cookie) {
    a.name == b.name && a.domain == b.domain && a.path == b.path
  }

  /**
   * boost's `a <= b` on two times. It is defined as `!(b < a)`, and `<` is false
   * as soon as one side is `not_a_date_time`, so the answer is then always true.
   */
  predicate NotLater(a: Expiry, b: Expiry) {
    a.Session? || b.Session? || a.time <= b.time
  }

  /**
   * The order used for the merge's sort by expiry, descending: a session cookie
   * ranks above every concrete time, and later times rank above earlier ones.
   * It is a total preorder.
   */
  predicate RanksAtLeast(a: Expiry, b: Expiry) {
    a.Session? || (b.At? && a.time >= b.time)
  }

  /** The records are sorted by expiry, descending, in the order above. */
  predicate SortedByExpiry(s: seq<Cookie>) {
    forall i, j :: 0 <= i < j < |s| ==> RanksAtLeast(s[i].expires, s[j].expires)
  }
}
