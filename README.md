# avhttp cookie jar, modelled in Dafny

This project models the `avhttp::cookies` container of avhttp's
`include/avhttp/cookie.hpp` and proves properties of the model. The container
is the client-side cookie jar of an HTTP client library. It holds a vector of
`cookie_t` records and a default domain, and provides:

- **The Set-Cookie parser.** `parse_cookie_string` is a five-state machine that
  makes one transition per character. It collects name/value pairs into an ordered
  `std::map`, strips the `expires`, `domain` and `path` attributes, and emits
  one record per remaining pair.
- **The merge.** `operator+` concatenates two jars and sorts the records by
  expiry, latest first. It then filters the sorted list with
  `cookie_megerable`, which looks at the result built so far.
- **Jar operations.** `get_cookie_line` builds the request's `Cookie:` line.
  The lookups are `operator[]` and the two `find`s. The appenders are the
  three `operator()`s. There are also `remove_cookie`, `clear`, `size` and
  `default_domain`.
- **The Netscape cookie-file codec.** This is the text `save_to_file` writes
  and the per-line parsing in `load_from_file`.

## Modules

| module | file | what |
|---|---|---|
| `Wrappers` | `wrappers.dfy` | `Option` |
| `CookieRecord` | `cookie_record.dfy` | the record, its key, and the two orders on expiry (boost's `<=` and the sort order) |
| `StringMap` | `string_map.dfy` | `std::map<std::string, std::string>` as a strictly ordered association list |
| `SetCookieParser` | `set_cookie_parser.dfy` | the state machine as functions, and `parse_cookie_string` as methods with loops proved equal to those functions |
| `SetCookieProperties` | `set_cookie_parser.dfy` | failure, output and attribute properties of the parser |
| `CookieMerge` | `cookie_merge.dfy` | `find`, `cookie_megerable`, the admission fold, an in-place sort on an array, and `operator+` |
| `CookieMergeProperties` | `cookie_merge.dfy` | merge shape, key preservation and deduplication |
| `CookieFile` | `cookie_file.dfy` | the file text as pure string functions |
| `CookieFileProperties` | `cookie_file.dfy` | the decimal/`atol` round trip, the tab split, header skipping and the save/load round trip |
| `CookieJar` | `cookie_jar.dfy` | `class Jar` with `cookies: seq<Cookie>` and `defaultDomain`, plus `remove_if` and the cookie line |

## Representation choices

- **Helpers outside this model.** `detail::is_char` and `detail::is_tspecial`
  live in a header that is not part of this model; they become the parameter
  `CharClasses`. `detail::parse_http_date` becomes the parameter
  `DateParser = string -> Option<int>`. The clock that `get_cookie_line` reads
  becomes the parameter `now`.
- **Expiry.** The `expires` field is `Session` (boost's `not_a_date_time`) or
  `At(t)` (seconds since the epoch).
- **Comparing expiries.**
  - Boost's `element.expires <= it->expires` is `!(b < a)`. It is true whenever
    one side is `not_a_date_time`, and `NotLater` models it that way.
  - The sort compares with `std::greater<ptime>`, which is false both ways when
    either side is `not_a_date_time`. With session cookies present, it is
    therefore not a strict weak ordering, and `std::sort` promises no order.
    The model chooses a total order instead, `RanksAtLeast`: a session cookie
    ranks above every concrete time, and later times rank above earlier ones.
  - Among records of equal rank, `std::sort` may produce any order. So `Plus`
    returns the permutation it sorted into as a ghost `sorted`, and the merge
    lemmas hold for any permutation sorted by `RanksAtLeast`. The in-place
    insertion sort is one way of producing such a permutation.
- **`std::map`** is an ordered sequence of entries with unique keys. Its
  iteration order is `std::string`'s `operator<` (`StringMap.Less`).
- **Iterators and `end()`.** A record is addressed by an index; `end()` is `|cookies|`.
- **The file.** The file system is replaced by the text of the file.
  `getline` until `eof` becomes `Lines`. Opening with `std::ios::out`
  truncates the file, so the header is always written.

## Model

| member | source | states |
|---|---|---|
| StringMap.Put | include/avhttp/cookie.hpp:537 | `tmp[name] = value` keeps the map ordered, stores `value` under `name`, leaves every other key's value unchanged and keeps lower bounds |
| StringMap.PutAllLastWins | include/avhttp/cookie.hpp:535-562 | after a run of map assignments each key holds the value assigned to it last |
| StringMap.LookupEntry | include/avhttp/cookie.hpp:489 | every entry of an ordered map is found by its own key |
| SetCookieParser.Step | include/avhttp/cookie.hpp:496-570 | one character keeps the machine well formed; it reaches `cookie_bad` iff it was there or `FailsOn` names the character; the map changes only by the pair the character commits; `secure`/`httponly` are set only by `;` after that bare name |
| SetCookieParser.Scan | include/avhttp/cookie.hpp:493-571 | the character loop, stopping at `cookie_bad`, keeps the machine well formed (ordered map, no empty key, buffers consistent with the state) |
| SetCookieParser.Finish | include/avhttp/cookie.hpp:572-586 | at the end of input: a value-start state (text ending in `name=`) and a name-start state commit nothing; a trailing bare `secure`/`httponly` sets its flag and any other bare name is ignored; a pending value is committed |
| SetCookieParser.Lower | include/avhttp/cookie.hpp:591 | definition, no contract: `to_lower_copy` maps `A`-`Z` to `a`-`z` and keeps every other character; its properties are stated in `SetCookieProperties.LowerMatches` |
| SetCookieProperties.LowerMatches | include/avhttp/cookie.hpp:591 | `to_lower_copy(key)` equals a lower-case word exactly when the key spells that word with any of its letters in upper case |
| SetCookieProperties.AttributeIgnoresCase | include/avhttp/cookie.hpp:591-606 | a key is treated as an attribute iff it is `expires`, `domain` or `path` with any letters in upper case |
| SetCookieProperties.AttributeExamples | include/avhttp/cookie.hpp:591-606 | `Expires`, `DOMAIN` and `pAtH` are attributes; `paths`, `expire` and the empty key are not |
| SetCookieParser.IsAttribute | include/avhttp/cookie.hpp:591-606 | definition, no contract: the lowered key is `expires`, `domain` or `path`; its properties are stated in `SetCookieProperties.AttributeIgnoresCase`, `AttributeExamples` and `NonAttributesLookup` |
| SetCookieParser.ApplyAttribute | include/avhttp/cookie.hpp:591-610 | definition, no contract: one turn of the attribute loop on the expiry, domain or path; its properties are stated in `SetCookieProperties.ResolveDomain`, `ResolvePath` and `ResolveExpires` |
| SetCookieParser.Resolve | include/avhttp/cookie.hpp:588-615 | definition, no contract: the attribute loop over the whole map in key order; its properties are stated in `SetCookieProperties.ResolveDomain`, `ResolvePath`, `ResolveExpires` and in `SetCookieParser.StripAttributes` |
| SetCookieParser.NonAttributes | include/avhttp/cookie.hpp:588-615 | the entries left after the attribute loop come from the map, are not attributes, and stay ordered |
| SetCookieParser.Emit | include/avhttp/cookie.hpp:618-624 | one record per entry left, each with the entry's name and value and the shared domain, path, expiry and flags |
| SetCookieParser.ParseSetCookie | include/avhttp/cookie.hpp:474-627 | the parser fails iff the character loop ends in `cookie_bad` |
| SetCookieParser.ParseCookieString | include/avhttp/cookie.hpp:474-627 | the imperative parser returns `false` with no records exactly when `ParseSetCookie` is None, and otherwise returns its records |
| SetCookieParser.RunMachine | include/avhttp/cookie.hpp:493-571 | the `while`/`switch` loop ends in the state `Scan` computes |
| SetCookieParser.StripAttributes | include/avhttp/cookie.hpp:588-615 | the erase-while-iterating loop leaves `NonAttributes` of the map and sets domain, path and expiry as `Resolve` says |
| SetCookieParser.StripOne | include/avhttp/cookie.hpp:591-614 | one turn of the attribute loop either erases the entry and applies it, or steps past it, keeping the loop invariant |
| SetCookieParser.Erase | include/avhttp/cookie.hpp:595 | `tmp.erase(i++)` removes exactly the entry at that position |
| SetCookieParser.EmitRecords | include/avhttp/cookie.hpp:618-624 | the `push_back` loop produces `Emit` of the entries left |
| SetCookieProperties.ScanFails | include/avhttp/cookie.hpp:493-571 | the loop ends in `cookie_bad` iff some character, read in the state reached before it, fails |
| SetCookieProperties.ParseFails | include/avhttp/cookie.hpp:498-586 | `parse_cookie_string` returns false iff some character fails: a non-space outside `is_char` at a name start, `;` after a bare name other than `secure`/`httponly`, or a non-`is_char` character other than `;` and the quotes at or in a value |
| SetCookieProperties.ScanPairs | include/avhttp/cookie.hpp:535-562 | the map the loop builds is its committed pairs assigned in order |
| SetCookieProperties.FinalMapLastWins | include/avhttp/cookie.hpp:535-582 | in the final map each name holds the value committed for it last: a later duplicate overwrites an earlier one |
| SetCookieProperties.NonAttributesLookup | include/avhttp/cookie.hpp:588-615 | the attribute loop removes exactly the keys that are `expires`/`domain`/`path` in any case, and keeps every other key's value |
| SetCookieProperties.ParsedRecords | include/avhttp/cookie.hpp:588-624 | on success: no emitted name is empty or an attribute; names strictly ascend (one record per distinct key, in key order); all records share domain, path, expiry and flags; each name carries its last committed value |
| SetCookieProperties.ParsedPairs | include/avhttp/cookie.hpp:618-624 | the records' (name, value) pairs are exactly the non-attribute entries of the final map, in order, and the records share their attributes |
| SetCookieProperties.ParsedNames | include/avhttp/cookie.hpp:499-505 | no emitted name is empty or an attribute key |
| SetCookieProperties.ParsedLookup | include/avhttp/cookie.hpp:588-624 | a name's value among the records is its last committed value, and attribute names are absent |
| SetCookieProperties.ResolveDomain | include/avhttp/cookie.hpp:597-605 | the shared domain is the last `domain` entry's value, or `""` without one; an empty value is replaced by the default domain |
| SetCookieProperties.ResolvePath | include/avhttp/cookie.hpp:606-610 | the shared path is the last `path` entry's value, or `""` without one |
| SetCookieProperties.ResolveExpires | include/avhttp/cookie.hpp:591-596 | without an `expires` entry the records are session cookies; with one whose value parses as a date, they expire at that date |
| CookieMerge.FindName | include/avhttp/cookie.hpp:374-385 | `find(name)` is the first index with that name, or the end if none |
| CookieMerge.FindKey | include/avhttp/cookie.hpp:402-413 | `find(cookie)` is the first index with the same (name, domain, path), or the end if none |
| CookieMerge.Megerable | include/avhttp/cookie.hpp:639-667 | a key absent from the result (checked by full key) is admitted; an empty value is admitted iff its key is absent; otherwise it is admitted iff the first same-NAME record has an empty value or expires earlier |
| CookieMerge.SortByExpiry | include/avhttp/cookie.hpp:686-687 | the array ends sorted by expiry, latest first, and is a permutation of its old contents |
| CookieMerge.InsertLast | include/avhttp/cookie.hpp:686-687 | one insertion step extends the sorted prefix by one and permutes the array |
| CookieMerge.Plus | include/avhttp/cookie.hpp:677-696 | `lhs + rhs` is the admission fold over a sorted permutation of the concatenation, and holds only records of the two jars |
| CookieMerge.Merged | include/avhttp/cookie.hpp:692-693 | definition, no contract: `remove_copy_if` with `cookie_not_megerable` reading the output built so far; its properties are stated in `CookieMergeProperties.MergedIsSubsequence`, `MergedFromInput`, `MergedGrows`, `MergedKeys` and `MergedDeduplicates` |
| CookieMergeProperties.MergedIsSubsequence | include/avhttp/cookie.hpp:692-693 | the merge result is a subsequence of the sorted records |
| CookieMergeProperties.MergedFromInput | include/avhttp/cookie.hpp:692-693 | every record of the result comes from the input |
| CookieMergeProperties.MergedGrows | include/avhttp/cookie.hpp:692-693 | records admitted for a prefix stay in the final result |
| CookieMergeProperties.FirstOfKeyAdmitted | include/avhttp/cookie.hpp:646-649 | the first record of each key in sorted order is always admitted |
| CookieMergeProperties.MergedKeys | include/avhttp/cookie.hpp:677-696 | a key is in the merge result iff it is in the input: none lost, none invented |
| CookieMergeProperties.MergedDeduplicates | include/avhttp/cookie.hpp:643-663 | with only non-empty values and concrete expiries, the merge of a sorted list is exactly the first record of each key, per the reference `FirstOfEachKey` |
| CookieMergeProperties.FirstOfEachKeyUnique | include/avhttp/cookie.hpp:646 | the reference result has unique keys and comes from the input |
| CookieMergeProperties.MergedUniqueKeys | include/avhttp/cookie.hpp:643-663 | under the same conditions the merge result has one record per key |
| CookieMergeProperties.DuplicateAfterPlaceholderOfSameName | include/avhttp/cookie.hpp:643-659 | duplicates can survive: an empty same-name record of another domain makes a second record of one key admissible |
| CookieMergeProperties.PlaceholderKeptBesideValue | include/avhttp/cookie.hpp:654-659 | a valued record is admitted beside an empty placeholder of the same key instead of replacing it |
| CookieMergeProperties.PlusKeys | include/avhttp/cookie.hpp:677-696 | whatever order the sort picks, `lhs + rhs` holds exactly the keys of both jars |
| CookieJar.Sendable | include/avhttp/cookie.hpp:322-332 | definition, no contract: a record with a non-empty value, not secure on a plain connection, and a session cookie or not earlier than `now`; its properties are stated in `CookieJar.LineEmpty`, `SendableOnLine` and `PiecesFrom` |
| CookieJar.Join | include/avhttp/cookie.hpp:334-339 | definition, no contract: the pieces with `"; "` between neighbours; its properties are stated in `CookieJar.JoinEmpty` and `LineSnoc` |
| CookieJar.JarPlus | include/avhttp/cookie.hpp:677-696 | `lhs + rhs` returns a new jar whose default domain is empty, whatever either operand had, and whose records are the admission fold over a sorted permutation of both jars' records |
| CookieJar.Pair | include/avhttp/cookie.hpp:339 | the `name=value` text is non-empty and contains `=` |
| CookieJar.Pieces | include/avhttp/cookie.hpp:319-340 | at most one piece per record, none empty |
| CookieJar.PiecesFrom | include/avhttp/cookie.hpp:321-339 | every piece is `name=value` of a record with a value, not secure on a plain connection, and not expired at `now` |
| CookieJar.JoinEmpty | include/avhttp/cookie.hpp:334-339 | joining non-empty pieces with `"; "` is empty iff there are no pieces |
| CookieJar.LineEmpty | include/avhttp/cookie.hpp:307-343 | the line is `""` iff no record is sendable |
| CookieJar.SendableOnLine | include/avhttp/cookie.hpp:321-339 | every sendable record's `name=value` appears on the line |
| CookieJar.LineSnoc | include/avhttp/cookie.hpp:334-339 | one more record leaves the line alone if it is not sendable; otherwise it adds its piece, after `"; "` unless the line was empty |
| CookieJar.BuildLine | include/avhttp/cookie.hpp:318-340 | the loop with its three `continue`s and separator produces the `"; "`-join of the sendable records' pieces, in order |
| CookieJar.PiecesFromJar | include/avhttp/cookie.hpp:307-343 | every piece on the jar's line is `name=value` of a sendable record of the jar |
| CookieJar.Kept | include/avhttp/cookie.hpp:434-435 | the records with another name, in order, and no more of them than there were; its membership and order are stated in `CookieJar.KeptMembers`, `KeptInOrder` and `RemoveIfName` |
| CookieJar.KeptMembers | include/avhttp/cookie.hpp:416-436 | `remove_if` keeps exactly the records with another name |
| CookieJar.KeptInOrder | include/avhttp/cookie.hpp:434-435 | the kept records keep their relative order |
| CookieJar.RemoveIfName | include/avhttp/cookie.hpp:434-435 | `remove_if` returns a new end equal to the number kept; the kept records are compacted before it, in order; the size is unchanged; the places after it hold what they held |
| CookieJar.FindIfName | include/avhttp/cookie.hpp:434-435 | the `find_if` loop returns `CookieMerge.FindName`: the first record with the name, or the end |
| CookieJar.CopyKept | include/avhttp/cookie.hpp:434-435 | the copy loop after the first match gives the same result as `RemoveIfName` |
| CookieJar.PushBackAll | include/avhttp/cookie.hpp:295-299 | the `push_back` loop appends the parsed records in order |
| CookieJar.Jar.constructor | include/avhttp/cookie.hpp:118-119 | the jar starts empty with an empty default domain |
| CookieJar.Jar.Add | include/avhttp/cookie.hpp:272-279 | appends exactly one record with that name and value and otherwise default fields; nothing else changes |
| CookieJar.Jar.AddCookie | include/avhttp/cookie.hpp:283-287 | appends exactly the given record; nothing else changes |
| CookieJar.Jar.AddSetCookie | include/avhttp/cookie.hpp:290-303 | appends the parsed records on success, and leaves the jar unchanged when parsing fails |
| CookieJar.Jar.GetCookieLine | include/avhttp/cookie.hpp:307-343 | the line is the `"; "`-join over the self-merged records (a sorted permutation of the jar, then the fold) of the sendable ones, and is `""` iff none of them is sendable; it is `""` when no record of the jar is sendable, so also for an empty jar |
| CookieJar.Jar.Get | include/avhttp/cookie.hpp:346-357 | `operator[]` returns the value of the first same-name record with a non-empty value, and `""` iff every same-name record is empty |
| CookieJar.Jar.FindByName | include/avhttp/cookie.hpp:360-385 | the first index with that name, or the size |
| CookieJar.Jar.FindByKey | include/avhttp/cookie.hpp:388-413 | the first index with the same name, domain and path, or the size |
| CookieJar.Jar.RemoveCookie | include/avhttp/cookie.hpp:432-436 | size unchanged; the records with another name come first, in order; the rest of the vector is as before |
| CookieJar.Jar.Clear | include/avhttp/cookie.hpp:439-442 | no records left; the default domain is kept |
| CookieJar.Jar.Size | include/avhttp/cookie.hpp:445-448 | the number of records held |
| CookieJar.Jar.SetDefaultDomain | include/avhttp/cookie.hpp:457-460 | sets the default domain; records are unchanged |
| CookieJar.Jar.DefaultDomain | include/avhttp/cookie.hpp:463-466 | returns the default domain |
| CookieJar.Jar.SaveToText | include/avhttp/cookie.hpp:145-223 | the text written is the header and then each record's writes followed by the corrected newline, one line per record; `SaveThenLoadFixed` proves its round trip |
| CookieJar.Jar.LoadFromText | include/avhttp/cookie.hpp:228-267 | appends, in order, the record of every line that is neither blank nor a comment |
| CookieJar.WriteRecord | include/avhttp/cookie.hpp:176-221 | the write calls for one record, as written, produce the seven fields each followed by a tab, with no newline (`FormatRecord`) |
| CookieJar.ReadLine | include/avhttp/cookie.hpp:243-262 | the loop body for one line gives that line's records |
| CookieJar.LineIsFormatted | include/avhttp/cookie.hpp:176-221 | the concatenation of the seven writes, each followed by a tab, is the record's text `FormatRecord` |
| CookieFile.Trim | include/avhttp/cookie.hpp:244 | definition, no contract: `boost::trim`, removing classic-locale white space at both ends; its properties are stated in `CookieFileProperties.TrimmedTokens` and `CommentSkipped` |
| CookieFile.Atol | include/avhttp/cookie.hpp:254 | definition, no contract: `atol`: leading white space skipped, then an optional sign and the leading digits; its properties are stated in `CookieFileProperties.AtolDigits` and `DecimalRoundTrip` |
| CookieFile.Tokens | include/avhttp/cookie.hpp:252 | definition, no contract: `boost::split` on tabs with `token_compress_on`; its properties are stated in `CookieFileProperties.TokensCons` and `TokensOfJoined` |
| CookieFile.Lines | include/avhttp/cookie.hpp:240-242 | definition, no contract: the `getline` loop until `eof`; its properties are stated in `CookieFileProperties.LinesCons` and `MemoLines` |
| CookieFile.FormatRecord | include/avhttp/cookie.hpp:176-221 | definition, no contract: one record's writes as written, seven fields each followed by a tab and no newline; its properties are stated in `CookieFileProperties.FormatThenParse`, `TwoRecordsOneLine` and `CookieJar.LineIsFormatted` |
| CookieFile.SaveText | include/avhttp/cookie.hpp:145-223 | definition, no contract: `save_to_file` as written, the header and then each record's writes; its properties are stated in `CookieFileProperties.MemoLines`, `TwoRecordsOneLine` and `SaveTextLosesSecondRecord` |
| CookieFile.SaveTextFixed | include/avhttp/cookie.hpp:145-223 | definition, no contract: the header and one newline-ended line per record, with the corrected `f.write("\t\n", 2)`; its round trip is stated in `CookieFileProperties.SaveThenLoadFixed` |
| CookieFile.LoadLines | include/avhttp/cookie.hpp:240-266 | definition, no contract: the records of the lines read, in order; its properties are stated in `CookieFileProperties.LoadLinesAppend`, `LoadLinesSnoc` and `LoadRecordLines` |
| CookieFile.LoadText | include/avhttp/cookie.hpp:228-267 | definition, no contract: `load_from_file` on the file's text; its properties are stated in `CookieFileProperties.SaveTextLosesSecondRecord`, `SaveThenLoadFixed` and `CookieJar.Jar.LoadFromText` |
| CookieFile.Digits | include/avhttp/cookie.hpp:208-211 | the decimal digits of a non-negative number: non-empty, digits only |
| CookieFile.DecimalString | include/avhttp/cookie.hpp:203-211 | `oss << t` is non-empty and has no tab or newline |
| CookieFile.DigitPrefix | include/avhttp/cookie.hpp:254 | `atol` reads the longest run of leading digits |
| CookieFile.FirstIndex | include/avhttp/cookie.hpp:252 | the position of the first separator |
| CookieFile.SkipTabs | include/avhttp/cookie.hpp:252 | compressing a run of tabs shortens the text |
| CookieFile.Fields | include/avhttp/cookie.hpp:176-219 | a record is written as seven fields |
| CookieFile.ParseLine | include/avhttp/cookie.hpp:243-262 | a line yields no record iff it is blank or a comment after trimming; a record read from a file is never http-only and always has a concrete expiry |
| CookieFileProperties.DigitsValueOfDigits | include/avhttp/cookie.hpp:210 | the digits of `n` denote `n` |
| CookieFileProperties.AtolDigits | include/avhttp/cookie.hpp:254 | `atol` of a digit string, with or without `-`, is its value |
| CookieFileProperties.DecimalRoundTrip | include/avhttp/cookie.hpp:203-254 | `atol` reads back the decimal text of every time, negative times included |
| CookieFileProperties.TokensCons | include/avhttp/cookie.hpp:252 | a single tab after a tab-free token splits it off |
| CookieFileProperties.TokensOfJoined | include/avhttp/cookie.hpp:252 | non-empty tab-free fields joined by tabs split back into the same fields |
| CookieFileProperties.LinesCons | include/avhttp/cookie.hpp:240-242 | `getline` splits at the first newline |
| CookieFileProperties.CommentSkipped | include/avhttp/cookie.hpp:244-248 | a line starting with `#` and not ending in white space is skipped |
| CookieFileProperties.MemoLines | include/avhttp/cookie.hpp:161-168 | the header reads back as three comment lines and a blank line, all skipped, yielding no record |
| CookieFileProperties.SkippedLoadNothing | include/avhttp/cookie.hpp:243-248 | skipped lines yield no record |
| CookieFileProperties.LoadLinesAppend | include/avhttp/cookie.hpp:240-266 | loading concatenated lines loads each part in order |
| CookieFileProperties.LoadLinesSnoc | include/avhttp/cookie.hpp:240-266 | reading one more line adds that line's records |
| CookieFileProperties.TrimmedTokens | include/avhttp/cookie.hpp:244-252 | trimming a saved line removes only its last tab, and its tokens are its fields |
| CookieFileProperties.FormatThenParse | include/avhttp/cookie.hpp:176-262 | one record's line parses back to the written domain (own or default), path, secure flag (true iff column 3 is `TRUE`), time (0 when there is no expiry), name and value |
| CookieFileProperties.TwoRecordsOneLine | include/avhttp/cookie.hpp:220-221 | as written, two saved records form one line of fourteen tab-separated fields |
| CookieFileProperties.ParseFieldsLine | include/avhttp/cookie.hpp:251-262 | a line whose first seven tokens are a record's fields reads as that record, whatever follows |
| CookieFileProperties.SaveTextLosesSecondRecord | include/avhttp/cookie.hpp:145-267 | as written, saving two records and loading the file yields only the first |
| CookieFileProperties.LoadRecordLines | include/avhttp/cookie.hpp:240-266 | newline-ended record lines load back as the records, in order |
| CookieFileProperties.LoadConsLine | include/avhttp/cookie.hpp:240-266 | a record line followed by more text loads as that record and then the rest |
| CookieFileProperties.SaveThenLoadFixed | include/avhttp/cookie.hpp:145-267 | with the corrected line ending, saving any list of saveable records and loading the file gives each back, in order |

## Left out

- File I/O is replaced by the file's text. This covers `fstream` opening, the
  `no_such_file_or_directory` exceptions, `fs::file_size`, and the
  `eof`/`getline` plumbing beyond splitting the text into lines.
- `detail::is_char`, `detail::is_tspecial` and `detail::parse_http_date` take
  any definition (parameters). `get_cookie_line`'s
  `second_clock::local_time()` is the parameter `now`.
- `detail::ptime_to_time_t`, `from_time_t` and `to_simple_string` are the
  identity on seconds, and the unused string `s` in `load_from_file` is not
  modelled. A loaded record has a concrete expiry, and time 0 stands for a
  session cookie saved as `0`. So a session cookie that is saved and loaded
  again becomes `At(0)`, and `get_cookie_line` then drops it as expired
  (the expiry test at cookie.hpp:328-329 against `from_time_t` at :259); the
  model has this behaviour too.
- SetCookieParser.ApplyAttribute: when `parse_http_date` fails, the model
  keeps the expiry it had, since `parse_http_date`, defined outside this
  model, is assumed not to write its out-parameter. The `BOOST_ASSERT(0)` debug check is not modelled.
- CookieFile.Loadable: a non-skipped line with fewer than seven tokens makes
  `split_vec[...]` index out of range, which is undefined behaviour. The model
  requires at least seven tokens (`LoadFromText`'s precondition).
- CookieFile.Atol: overflow of `long`, and of a 32/64-bit `time_t`, is not
  modelled; integers are unbounded.
- `CookieJar.Jar.Size` returns the count as an unbounded `int`; the narrowing
  cast from `size_t` to `int` is not modelled.
- `reserve`, `begin`/`end` and the iterator typedefs have no observable effect
  on the records and are not modelled; indices stand for iterators.
- CookieMerge.SortByExpiry and CookieMerge.Plus: with `not_a_date_time`
  expiries the source's comparator (`std::greater` on `ptime`) is not a strict
  weak ordering, so the order `std::sort` leaves is unspecified, and it
  need not be a sorted order at all. The model sorts by its chosen total order
  `RanksAtLeast`. It does not capture whatever other order the library's sort
  leaves in that case. Among equal ranks, where `std::sort` is also not stable,
  `Plus` exposes the order as a ghost permutation, and the merge lemmas hold for
  every permutation sorted by `RanksAtLeast`.
- CookieMerge.Plus: it returns only the records of `operator+`'s result. The
  result itself is a default-constructed jar (cookie.hpp:679), so its default
  domain is always empty, and `jar = jar + other` clears the jar's default
  domain. `CookieJar.JarPlus` states this at the level of jars.
- CookieMergeProperties.MergedDeduplicates: it holds only when every record
  has a non-empty value and a concrete expiry. Otherwise the code can keep two
  records of one key, as `DuplicateAfterPlaceholderOfSameName` and
  `PlaceholderKeptBesideValue` exhibit. The model follows the code here, not
  the stronger claim that the merge never leaves two records of one key.
- CookieJar.Jar.SaveToText: it adds the corrected newline after each record's
  writes (`CookieJar.WriteRecord`, which is as written), so that the jar's save
  and load round trip. The code as written is modelled by
  `CookieFile.SaveText` (see Findings).
- CookieJar.Jar.RemoveCookie: C++98 `remove_if`, without a following
  `erase`, leaves the places after the new end holding their old records.
  Later library versions may move from them instead; the model states the
  copying behaviour.
- Characters: each Dafny `char` stands for one byte of the C++ `std::string`,
  so its values are meant to be below 256. With that reading, `is_char`,
  `is_tspecial`, the character comparisons of the parser (cookie.hpp:493-571)
  and `StringMap.Less` (byte order, as `std::string`'s `operator<` compares
  bytes as unsigned) agree with the source. The model does not exclude wider
  characters; on them it states nothing the source does.
- Concurrency: the container has none.

## Findings

| source | as written | input that shows it | evidently intended | confidence | as-written member | corrected member |
|---|---|---|---|---|---|---|
| include/avhttp/cookie.hpp:221 | `f.write("\t\n", 1)` writes only the tab, so no record line ends with a newline and all records of a saved file run together on one line; on loading, that line's tokens 0, 2-6 give the first record only | a jar of two records with domain `d`, path `/`, names `a`, `b` and values `1`, `2`: loading the saved file yields only `a` | `f.write("\t\n", 2)`, one line per record, so that loading a saved file gives back every record | not executed | `CookieFileProperties.SaveTextLosesSecondRecord` | `CookieFileProperties.SaveThenLoadFixed` |
