# URL shortener service — a verified model of its core

This project models the core of the console URL shortener `url-shortener-service`.

## Entities
- **`Link`** is a short link: its code, its address, its owner, a click limit, a click counter, its creation and expiry times, and an active flag.
- **`User`** is an owner together with the ordered list of codes it created.
- **`ShortUrlGenerator`** builds codes of the form `clck.ru/` followed by two hexadecimal digits of the owner's UUID and four characters from a 62-symbol alphabet. In `generateUniqueShortUrl` three of those four characters come from `String.hashCode`.
- **`LinkService`** keeps two maps, code → link and owner → user, and provides these operations:
  - create a link, with a bounded retry when the code collides;
  - open a link, which counts a click;
  - look a link up;
  - list an owner's links;
  - edit a link's limit and lifetime;
  - report why a link is unavailable;
  - sweep out expired links.
- The console application reads a click limit and a lifetime ("24ч", "3д", "12 часов") typed by the user. It prints a lifetime back with the Russian word for hours or days.

## Modules
The modules follow the source files:

| module | models |
|---|---|
| `Links` | `Link` |
| `Users` | `User` |
| `ShortUrlGenerator` | the generator |
| `LinkServices` | `LinkService` |
| `ConsoleInput` | the input rules and plural words of `UrlShortenerApp` |
| `Scenarios` | call sequences that the repository's tests exercise |

Four supporting modules write out the Java library behaviour the code depends on:
- `JavaInt`: 32-bit `int` wrap-around, `Math.abs`, and the truncating `/` and `%`;
- `JavaText`: `trim`, `toLowerCase`, `endsWith`, `replaceAll("[^0-9]", "")`, `Integer.parseInt` and `Long.toString`;
- `JavaHash`: `String.hashCode`;
- `Uuids`: `UUID.toString`.

## How the model is built
- **Objects.** `Link`, `User` and `LinkService` are classes. Their methods change fields in place.
- **Aliasing.** `getLinkInfo` hands out the live `Link` object, and callers can change the stored link through it.
- **Time.** Time is an integer number of seconds, passed in as `now`.
- **Randomness.**
  - `SecureRandom.nextInt(62)` results are values of the type `CharIndex`, passed in.
  - The clock readings used as retry salt are passed in as `millis`.
  - `UUID.randomUUID()` for a new owner is passed in as `freshId`.
- **Saving.** `saveData()` is a ghost counter `saves`.
- **Exceptions.** Each exception the code lets escape is a `Failure` value:
  - `IllegalArgumentException` for a blank address;
  - `StringIndexOutOfBoundsException` from the generator when `Math.abs(hash) + i` leaves the non-negative `int` range.

Each operation is stated against a specification function on values. `LinkRecord` is the value of a link's fields and `PickCode` the code the retry loop settles on. The lemmas about those functions carry the service's promises.

The model follows the code as written:
- There is no "generation exhausted" failure. After ten regenerations the last candidate is stored even if it is taken, and it replaces the older link (`PickCodeOverwrites`).
- The service does not check the click limit or the lifetime. Only the console does.
- `checkLinkStatus` checks in this order: expired, then limit reached, then deactivated.
- `updateLink` answers `false` both for an unknown code and for a code owned by someone else.
- No delete operation exists in the service.

## Model

| member | source | states |
|---|---|---|
| JavaInt.Wrap32 | src/main/java/com/urlshortener/model/Link.java:100 | the result is the `int` congruent to the input modulo 2^32, and equals the input when it is already in range |
| JavaInt.WrapShift | src/main/java/com/urlshortener/service/ShortUrlGenerator.java:41 | adding any multiple of 2^32 leaves the wrapped `int` unchanged |
| JavaHash.WrapStep | src/main/java/com/urlshortener/service/ShortUrlGenerator.java:41 | a step of the hash loop gives the same `int` whether the running hash was wrapped first or not |
| JavaInt.Abs32 | src/main/java/com/urlshortener/service/ShortUrlGenerator.java:47 | `Math.abs` is non-negative exactly when the argument is not `Integer.MIN_VALUE`; otherwise it returns the argument itself |
| JavaInt.TruncDiv | src/main/java/com/urlshortener/service/LinkService.java:196 | the quotient is truncated toward zero, bounded on both sides for negative and non-negative dividends |
| JavaInt.Rem | src/main/java/com/urlshortener/service/ShortUrlGenerator.java:49 | `a == q*b + r`; the remainder has the dividend's sign and is below `b` in magnitude |
| JavaHash.HashCode | src/main/java/com/urlshortener/service/ShortUrlGenerator.java:41 | the JDK loop `h = 31*h + c` in `int` arithmetic; its meaning is stated by `HashCodeFormula` |
| JavaHash.HashCodeFormula | src/main/java/com/urlshortener/service/ShortUrlGenerator.java:41 | the JDK's `h = 31*h + c` loop equals the documented polynomial `s[0]*31^(n-1)+…+s[n-1]` reduced to 32 bits |
| JavaText.ParseInt | src/main/UrlShortenerApp.java:121 | a digit string parses exactly when its value fits an `int`, and then parses to that value |
| JavaText.ParseIntOfIntToString | src/main/UrlShortenerApp.java:121 | `parseInt` reads back every `int` that `toString` writes |
| JavaText.KeepDigits | src/main/UrlShortenerApp.java:147 | the result consists only of digits, is no longer than the input, and is the input itself when the input is all digits |
| JavaText.KeepDigitsAppend | src/main/UrlShortenerApp.java:147 | keeping the digits commutes with concatenation |
| JavaText.Trim | src/main/java/com/urlshortener/service/LinkService.java:63 | the result is a contiguous piece of the input from which only characters up to U+0020 were cut at the two ends; it is empty exactly when every character is one of those, and otherwise it neither starts nor ends with one |
| JavaText.IsBlankIffTrimEmpty | src/main/java/com/urlshortener/service/LinkService.java:63 | blankness is exactly `trim().isEmpty()` |
| JavaText.ToLowerCase | src/main/UrlShortenerApp.java:138 | the string is lower-cased character by character and keeps its length |
| JavaText.ToLowerCaseIdempotent | src/main/UrlShortenerApp.java:138 | lower-casing twice is lower-casing once |
| JavaText.NatToString | src/main/java/com/urlshortener/service/LinkService.java:90 | the clock salt is written as decimal digits without leading zeros |
| JavaText.DigitsValueOfNatToString | src/main/java/com/urlshortener/service/LinkService.java:90 | the written digits denote the number |
| Uuids.ToString | src/main/java/com/urlshortener/service/ShortUrlGenerator.java:40 | the text form is 36 characters long, with dashes exactly at positions 8, 13, 18 and 23 and hexadecimal digits elsewhere |
| Uuids.RemoveDashes | src/main/java/com/urlshortener/service/ShortUrlGenerator.java:24 | no dash is left and the string does not grow |
| Uuids.RemoveDashesOfToString | src/main/java/com/urlshortener/service/ShortUrlGenerator.java:24 | with the dashes removed, 32 hexadecimal digits remain; their first eight are the first eight of `toString` |
| Links.ExpiryBoundary | src/main/java/com/urlshortener/model/Link.java:107-109 | a link is not expired at its expiry second and is expired one second later |
| Links.LinkRecord.IsClickLimitReached | src/main/java/com/urlshortener/model/Link.java:103-105 | the limit is reached once the counter is at or above it |
| Links.LinkRecord.IsExpired | src/main/java/com/urlshortener/model/Link.java:107-109 | a link is expired once `now` is strictly after its expiry |
| Links.LinkRecord.CanBeAccessed | src/main/java/com/urlshortener/model/Link.java:111-113 | a link is usable when it is active, not expired and below its limit |
| Links.LastClickReachesLimit | src/main/java/com/urlshortener/model/Link.java:99-113 | on a usable link, one more click exhausts the limit exactly when it is the last click the limit allows |
| Links.Link.constructor | src/main/java/com/urlshortener/model/Link.java:24-33 | a new link has the given fields, 0 clicks, creation time `now`, and is active |
| Links.Link.SetOriginalUrl | src/main/java/com/urlshortener/model/Link.java:47-49 | only the address changes |
| Links.Link.SetUserId | src/main/java/com/urlshortener/model/Link.java:55-57 | only the owner changes |
| Links.Link.SetClickLimit | src/main/java/com/urlshortener/model/Link.java:63-65 | only the limit changes |
| Links.Link.SetCurrentClicks | src/main/java/com/urlshortener/model/Link.java:71-73 | only the counter changes |
| Links.Link.SetCreatedAt | src/main/java/com/urlshortener/model/Link.java:79-81 | only the creation time changes |
| Links.Link.SetExpiresAt | src/main/java/com/urlshortener/model/Link.java:87-89 | only the expiry changes |
| Links.Link.SetActive | src/main/java/com/urlshortener/model/Link.java:95-97 | only the active flag changes |
| Links.Link.IsClickLimitReached | src/main/java/com/urlshortener/model/Link.java:103-105 | the live object's limit test is its record's |
| Links.Link.IsExpired | src/main/java/com/urlshortener/model/Link.java:107-109 | the live object's expiry test is its record's |
| Links.Link.CanBeAccessed | src/main/java/com/urlshortener/model/Link.java:111-113 | the live object's usability test is its record's |
| Links.Link.IncrementClicks | src/main/java/com/urlshortener/model/Link.java:99-101 | the counter rises by exactly one, with no cap; it wraps only past `Integer.MAX_VALUE`; nothing else changes |
| Users.RemoveFirst | src/main/java/com/urlshortener/model/User.java:46-48 | an absent element leaves the list unchanged; a present one makes it one shorter |
| Users.RemoveFirstSplit | src/main/java/com/urlshortener/model/User.java:46-48 | exactly the first occurrence is cut out; what comes before and after it keeps its order |
| Users.RemoveFirstMultiset | src/main/java/com/urlshortener/model/User.java:46-48 | removing a present element removes exactly one copy of it |
| Users.RemoveFirstOfEach | src/main/java/com/urlshortener/service/LinkService.java:266-274 | removing the first occurrences of a set of codes never lengthens the list, and removing none changes nothing |
| Users.RemoveFirstOfEachStep | src/main/java/com/urlshortener/service/LinkService.java:266-274 | removing codes one at a time, in any order, equals removing them all at once |
| Users.RemoveFirstOfEachCount | src/main/java/com/urlshortener/service/LinkService.java:266-274 | each removed code that occurs in the list loses exactly one copy; every other element keeps its count |
| Users.User.constructor | src/main/java/com/urlshortener/model/User.java:16-24 | a new user has the given (or drawn) identifier and an empty list |
| Users.User.GetShortUrls | src/main/java/com/urlshortener/model/User.java:34-36 | the live list of codes, in the order they were added |
| Users.User.SetShortUrls | src/main/java/com/urlshortener/model/User.java:38-40 | the list is replaced |
| Users.User.AddShortUrl | src/main/java/com/urlshortener/model/User.java:42-44 | the code is appended at the end, earlier codes keep their order, and duplicates are allowed |
| Users.User.RemoveShortUrl | src/main/java/com/urlshortener/model/User.java:46-48 | the list loses the first occurrence of the code |
| ShortUrlGenerator.UserIdHash | src/main/java/com/urlshortener/service/ShortUrlGenerator.java:24 | the owner part is two characters |
| ShortUrlGenerator.UserIdHashIsPrefix | src/main/java/com/urlshortener/service/ShortUrlGenerator.java:24 | the owner part is the first two characters of `userId.toString()`, both hexadecimal digits |
| ShortUrlGenerator.SameLinkSamePrefix | src/main/java/com/urlshortener/service/ShortUrlGenerator.java:56 | a link determines the owner part of its owner |
| ShortUrlGenerator.DistinctPrefixesDistinctLinks | src/main/java/com/urlshortener/service/ShortUrlGenerator.java:44-56 | owners whose first two hexadecimal digits differ never get the same link |
| ShortUrlGenerator.RandomShortUrl | src/main/java/com/urlshortener/service/ShortUrlGenerator.java:20-33 | reference definition of `generateShortUrl`: base, owner part and the four drawn characters; its shape is stated by `RandomShortUrlShape` |
| ShortUrlGenerator.RandomShortUrlShape | src/main/java/com/urlshortener/service/ShortUrlGenerator.java:20-33 | a random link is `clck.ru/` followed by the owner part and four alphabet characters (14 characters in all), and the code characters are the drawn ones |
| ShortUrlGenerator.RandomShortUrlCoversShape | src/main/java/com/urlshortener/service/ShortUrlGenerator.java:27-29 | every string of that shape is the outcome of some four draws |
| ShortUrlGenerator.GenerateShortUrl | src/main/java/com/urlshortener/service/ShortUrlGenerator.java:20-33 | the loop builds exactly the random link of the draws |
| ShortUrlGenerator.HashedShortUrl | src/main/java/com/urlshortener/service/ShortUrlGenerator.java:44-56 | the drawn first character, then `(h + i) % 62` for `i` = 1..3, or the exception when `h` is outside `0..2^31-4` |
| ShortUrlGenerator.UniqueShortUrl | src/main/java/com/urlshortener/service/ShortUrlGenerator.java:38-57 | reference definition of `generateUniqueShortUrl`; its properties are the lemmas below |
| ShortUrlGenerator.UniqueShortUrlShape | src/main/java/com/urlshortener/service/ShortUrlGenerator.java:38-57 | a hashed link has the generator's shape, and its first code character is the random one |
| ShortUrlGenerator.UniqueShortUrlFailureIgnoresDraw | src/main/java/com/urlshortener/service/ShortUrlGenerator.java:47-54 | whether the call throws is independent of the random draw |
| ShortUrlGenerator.UniqueShortUrlDeterministicTail | src/main/java/com/urlshortener/service/ShortUrlGenerator.java:48-54 | two calls for the same owner and address differ at most in the random character |
| ShortUrlGenerator.CodeIndex | src/main/java/com/urlshortener/service/ShortUrlGenerator.java:49-50 | the index `(hashValue + i) % 62` is non-negative exactly while `hashValue + i` has not wrapped, and then it equals the mathematical remainder |
| ShortUrlGenerator.AbsHashInRange | src/main/java/com/urlshortener/service/ShortUrlGenerator.java:47 | the hashes for which `Math.abs(hash) + 3` stays in range are characterized exactly |
| ShortUrlGenerator.UniqueShortUrlFailsIff | src/main/java/com/urlshortener/service/ShortUrlGenerator.java:41-50 | `generateUniqueShortUrl` throws exactly when the hash is `Integer.MIN_VALUE` or its magnitude is at least 2^31 − 3 |
| ShortUrlGenerator.GenerateUniqueShortUrl | src/main/java/com/urlshortener/service/ShortUrlGenerator.java:38-57 | the loop and `setCharAt` build exactly the reference hashed link, or throw exactly when it does |
| LinkServices.NormalizeUrl | src/main/java/com/urlshortener/service/LinkService.java:67-69 | `https://` is put in front of an address that starts with neither `http://` nor `https://`; its properties are stated by `NormalizeUrlSpec` |
| LinkServices.NormalizeUrlSpec | src/main/java/com/urlshortener/service/LinkService.java:67-69 | the stored address always starts with `http://` or `https://`; an address that already had one of these is unchanged; otherwise the address is only prefixed |
| LinkServices.NormalizeUrlIdempotent | src/main/java/com/urlshortener/service/LinkService.java:67-69 | normalizing twice is normalizing once |
| LinkServices.Candidates | src/main/java/com/urlshortener/service/LinkService.java:85-90 | there are eleven candidate codes; the first hashes the address, and the `k`-th hashes the address followed by the `k`-th clock reading |
| LinkServices.Candidate | src/main/java/com/urlshortener/service/LinkService.java:85-90 | attempt 0 hashes the address, attempt `k` hashes the address followed by the `k`-th clock reading |
| LinkServices.PickFrom | src/main/java/com/urlshortener/service/LinkService.java:88-92 | the retry loop from attempt `k` on; its meaning is stated by `PickFromSpec` |
| LinkServices.PickCode | src/main/java/com/urlshortener/service/LinkService.java:84-92 | the code the retry loop settles on; its meaning is stated by `PickCodeSpec` and `PickCodeOverwrites` |
| LinkServices.PickFromSpec | src/main/java/com/urlshortener/service/LinkService.java:88-92 | from any attempt, the loop stops at a candidate that is free, is the last, or threw, and every candidate before it collided |
| LinkServices.PickCodeSpec | src/main/java/com/urlshortener/service/LinkService.java:84-92 | the chosen code is the first free candidate in attempt order, or else the last; an exception comes from the first candidate that threw |
| LinkServices.PickCodeOverwrites | src/main/java/com/urlshortener/service/LinkService.java:88-99 | a taken code is stored again only when all eleven candidates were produced and collided |
| LinkServices.PickCodeShape | src/main/java/com/urlshortener/service/LinkService.java:85-99 | every stored code has the generator's shape for its owner |
| LinkServices.LookupAll | src/main/java/com/urlshortener/service/LinkService.java:154-157 | the result is no longer than the code list and consists of stored links; with every code stored it is the links in list order; with none stored it is empty |
| LinkServices.LookupAllAppend | src/main/java/com/urlshortener/service/LinkService.java:154-157 | looking up a concatenated list is looking up each part |
| LinkServices.UserLinksGrow | src/main/java/com/urlshortener/service/LinkService.java:99-100 | a newly stored code appended to its owner's list adds exactly its link at the end of the owner's links |
| LinkServices.StatusMessage | src/main/java/com/urlshortener/service/LinkService.java:226-238 | there is a message exactly when there is a reason; the texts are the ones `checkLinkStatus` returns |
| LinkServices.HoursRemaining | src/main/java/com/urlshortener/service/LinkService.java:196 | `Duration.toHours` of the time left: whole hours, truncated toward zero |
| LinkServices.Updated | src/main/java/com/urlshortener/service/LinkService.java:180-211 | an edit takes over a new limit only when it differs, and a new expiry only when it is off by more than an hour; the counter is reset exactly when one of these changed; the other fields are kept |
| LinkServices.UpdateIdempotent | src/main/java/com/urlshortener/service/LinkService.java:184-203 | repeating an edit at the same moment detects no change |
| LinkServices.HoursOfWholeHours | src/main/java/com/urlshortener/service/LinkService.java:192-196 | whole hours survive the round trip through seconds and `toHours` |
| LinkServices.ExpiryTolerance | src/main/java/com/urlshortener/service/LinkService.java:196-199 | re-entering the same lifetime counts as a change exactly when more than one hour has passed since it was set |
| LinkServices.LinkService.constructor | src/main/java/com/urlshortener/service/LinkService.java:26-44 | the service starts from the loaded maps with no save yet |
| LinkServices.LinkService.SaveData | src/main/java/com/urlshortener/service/LinkService.java:49-51 | one more save |
| LinkServices.LinkService.Shutdown | src/main/java/com/urlshortener/service/LinkService.java:285-292 | a final save |
| LinkServices.LinkService.ChooseCode | src/main/java/com/urlshortener/service/LinkService.java:84-92 | the retry loop returns the code `PickCode` chooses from the candidates, or its exception |
| LinkServices.LinkService.ResolveUser | src/main/java/com/urlshortener/service/LinkService.java:71-82 | the resolved owner is the given identifier or the drawn one; a known user is reused; otherwise a new user with an empty list is registered |
| LinkServices.LinkService.StoreLink | src/main/java/com/urlshortener/service/LinkService.java:94-103 | a new active link with 0 clicks is stored under the code, replacing any link there; the code is appended to the owner's list; one save |
| LinkServices.LinkService.CreateShortLink | src/main/java/com/urlshortener/service/LinkService.java:61-106 | a blank or missing address fails before either map changes; otherwise the owner is resolved, the code is the one `PickCode` chooses, and the link holds the normalized address, the limit, 0 clicks, expiry `now + hours` and the active flag; the code is appended to the owner's list; one save; a generator exception leaves the links unchanged but keeps a user just registered |
| LinkServices.LinkService.GetOriginalUrl | src/main/java/com/urlshortener/service/LinkService.java:113-132 | the address is returned exactly when the link exists and is accessible, and then its counter rises by one with one save; otherwise nothing changes |
| LinkServices.LinkService.GetLinkInfo | src/main/java/com/urlshortener/service/LinkService.java:139-141 | the stored object itself, not a copy, is returned exactly when the code is stored |
| LinkServices.LinkService.GetUserLinks | src/main/java/com/urlshortener/service/LinkService.java:148-158 | an unknown owner gets an empty list; otherwise the owner's stored links, at most one per listed code |
| LinkServices.LinkService.CheckLinkStatus | src/main/java/com/urlshortener/service/LinkService.java:222-242 | the reason is reported in this order: not found, expired, limit reached, deactivated; none is reported exactly when the link exists and is accessible |
| LinkServices.LinkService.UpdateLink | src/main/java/com/urlshortener/service/LinkService.java:169-215 | `true` exactly when the caller owns the link and the limit or the expiry really changes, and then the link becomes `Updated(...)` with one save; otherwise nothing changes |
| LinkServices.LinkService.RemoveLink | src/main/java/com/urlshortener/service/LinkService.java:267-273 | one iteration removes the link from the map and its code from its owner's list, when the owner is known |
| LinkServices.LinkService.RemoveEach | src/main/java/com/urlshortener/service/LinkService.java:266-274 | after the loop, every collected code has left the map and each owner's list has lost the codes it owned |
| LinkServices.LinkService.RemoveAll | src/main/java/com/urlshortener/service/LinkService.java:266-274 | the links for the collected codes are removed, and each owner's list loses the first occurrence of each of its removed codes |
| LinkServices.LinkService.CleanupExpiredLinks | src/main/java/com/urlshortener/service/LinkService.java:260-280 | exactly the links expired at `now` are removed, so none remains; the others are untouched; owners' lists lose the removed codes; a save happens exactly when something was expired |
| ConsoleInput.ParseLimit | src/main/UrlShortenerApp.java:119-130 | a limit is accepted exactly when it parses as a positive `int`; "not a number" and "not positive" are told apart |
| ConsoleInput.CreateLimit | src/main/UrlShortenerApp.java:116-130 | an empty answer means 10; every accepted limit is positive |
| ConsoleInput.EditLimit | src/main/UrlShortenerApp.java:354-369 | an empty answer keeps the current limit; otherwise the answer is read as when creating a link |
| ConsoleInput.LimitRoundTrip | src/main/UrlShortenerApp.java:116-130 | every positive limit typed in decimal is read back |
| ConsoleInput.ReadAmount | src/main/UrlShortenerApp.java:143-171 | with a unit word the number is all the digits of the text together: it is accepted exactly when there are digits and their value fits an `int`, and otherwise refused as having no digits or as out of range; without a unit word the whole text must be an `int`, counted in hours, or it is refused as an unknown format |
| ConsoleInput.ParseLifetime | src/main/UrlShortenerApp.java:138-183 | every refusal of the amount is passed on; an amount of 0 or less is refused, and only then with that message; a lifetime given in hours (or as a bare integer) is accepted as exactly that positive number of hours |
| ConsoleInput.ParseLifetimeDays | src/main/UrlShortenerApp.java:178-179 | a lifetime in days is 24 times the digits, wrapped to an `int` |
| ConsoleInput.CreateLifetime | src/main/UrlShortenerApp.java:134-183 | an empty answer means 24 hours; otherwise the lower-cased, trimmed answer is parsed |
| ConsoleInput.EditLifetime | src/main/UrlShortenerApp.java:372-419 | an empty answer keeps the current lifetime; otherwise the answer is read as when creating a link |
| ConsoleInput.TwelveHours | src/main/UrlShortenerApp.java:133-183 | "12 часов", with a space before the unit word, is read as 12 hours in both readings |
| ConsoleInput.HoursRoundTrip | src/main/UrlShortenerApp.java:153-162 | "Nч" is read as N hours, for every positive `int` N |
| ConsoleInput.DaysRoundTrip | src/main/UrlShortenerApp.java:143-152 | "Nд" is read as 24·N hours in `int` arithmetic; the corrected reading gives exactly 24·N hours or refuses |
| ConsoleInput.DaysOverflowWraps | src/main/UrlShortenerApp.java:179 | "89478486д" is read as −2147483632 hours |
| ConsoleInput.TwoDaysRefused | src/main/UrlShortenerApp.java:133-171 | "2 дня", one of the prompt's own examples, is refused; the corrected reading gives 48 hours |
| ConsoleInput.ParseLifetimeFixed | src/main/UrlShortenerApp.java:138-183 | every lifetime the corrected reading accepts is positive and exactly the typed amount in hours |
| ConsoleInput.CreateLifetimeFixed | src/main/UrlShortenerApp.java:134-183 | every lifetime the corrected dialogue accepts is positive |
| ConsoleInput.FixedAgreesUnlessWrapped | src/main/UrlShortenerApp.java:143-183 | wherever the reading as written accepts a lifetime, the corrected one gives the same hours, except for days whose hours do not fit an `int` |
| ConsoleInput.LifetimeText | src/main/UrlShortenerApp.java:190-196 | whole days (at least one) are shown as days; anything else is shown as hours |
| ConsoleInput.DaysShownAsTyped | src/main/UrlShortenerApp.java:179-193 | a lifetime typed in days is shown back as that number of days |
| ConsoleInput.HoursShownAsTyped | src/main/UrlShortenerApp.java:153-195 | a lifetime typed in hours that are not whole days is shown back in hours |
| ConsoleInput.FormatHours | src/main/UrlShortenerApp.java:206-214 | `formatHours`: "час" for 1, "часа" for 2-4, "часов" otherwise; compared with Russian grammar by the lemmas below |
| ConsoleInput.FormatDays | src/main/UrlShortenerApp.java:219-227 | `formatDays`: "день" for 1, "дня" for 2-4, "дней" otherwise; compared with Russian grammar by the lemmas below |
| ConsoleInput.FormatAgreesUpTo20 | src/main/UrlShortenerApp.java:206-227 | `formatHours` and `formatDays` choose the grammatical Russian form for every count up to 20 |
| ConsoleInput.FormatAgreesOnMany | src/main/UrlShortenerApp.java:206-227 | whenever Russian takes the "many" form, both functions choose it |
| ConsoleInput.FormatDiffersFrom21 | src/main/UrlShortenerApp.java:206-227 | from 21 on, every count that Russian puts in the "one" or "few" form gets a different word (as in "21 часов") |
| Scenarios.ThirdClickRefused | src/test/java/com/urlshortener/UrlShortenerTest.java:48-71 | a fresh link with limit 2 opens twice, then refuses; its limit is then reached |
| Scenarios.ExpiredThroughLinkInfo | src/test/java/com/urlshortener/UrlShortenerTest.java:73-90 | moving the expiry into the past through the object `getLinkInfo` returns makes the service refuse the link without saving |
| Scenarios.StatusAfterLastClick | src/test/java/com/urlshortener/UrlShortenerTest.java:151-167 | after the only allowed click, the status message is the exhausted-limit message |

## Left out
- Console I/O is not modelled. This covers the menu loop, `Scanner` reads, printing and the messages after an edit (`UrlShortenerApp.java` 18-75 and 428-439). The input rules start from the line as typed.
- `NotificationService`, `BrowserOpener` and `StorageService` are not part of this model. They do console output, a desktop call and Java serialization. Loading is replaced by the maps passed to the constructor, and `saveData` by a counter.
- The `Timer` that runs the sweep every minute is not modelled, and neither is the timer cancel in `shutdown`. `CleanupExpiredLinks` is a plain method.
- The `ConcurrentHashMap`s are modelled as plain maps. Calls never interleave.
- `getLinkStatistics` and `formatDateTime` are not modelled. They format dates with `DateTimeFormatter`.
- `deleteLink` is not modelled, and neither is a three-argument `createShortLink`. The application and the tests call both, but the service does not define them.
- `Link.setShortUrl` and `User.setId` are not modelled. The code and the identifier are constant fields, which keeps every map entry under its own key. Nothing in the repository calls either setter.
- The no-argument `new Link()` is not modelled. Nothing in the repository calls it.
- `LinkServices.LinkService.constructor` requires every loaded link to sit under its own code and every loaded user under its own identifier. This holds for anything `saveData` wrote. A storage file edited by hand may break it.
- `LinkServices.LinkService.CreateShortLink` uses one `now` for the expiry and for the creation time. The source reads the clock twice.
- `LinkServices.LinkService.CreateShortLink` requires enough clock readings and random draws for every retry (`EnoughEntropy`). This only sizes the values passed in for the system sources.
- `LinkServices.LinkService.RemoveAll` removes the expired codes in no particular order. The source walks them in `HashMap` order. The result is the same in every order (`Users.RemoveFirstOfEachStep`).
- `LinkServices.LinkService.GetUserLinks` does not state its result element by element, only its length and that every entry is stored. The element-by-element contract is on `LinkServices.LookupAll`.
- `JavaText.ToLowerCase` lower-cases only ASCII letters and the basic Cyrillic capitals (U+0400–U+042F). Other scripts are kept as typed.
- `JavaText.ParseInt` accepts only ASCII digits. Java's `Integer.parseInt` also accepts other Unicode decimal digits.
- `JavaHash.HashCode` treats every character as one UTF-16 code unit. Characters outside the Basic Multilingual Plane are not split into surrogate pairs.
- In `ConsoleInput`, digits that overflow `parseInt` after a unit word produce `DigitsOutOfRange`. In the source this is a `NumberFormatException` that escapes the dialogue and is reported by the menu loop.
- `ConsoleInput.EditLifetime` and the display of the remaining time on the edit screen (`UrlShortenerApp.java` 338-350) share the lifetime rules. They are not modelled as a separate dialogue.

## Findings

| source | as written | input that shows it | evidently intended | confidence | as-written member | corrected member |
|---|---|---|---|---|---|---|
| src/main/UrlShortenerApp.java:179 | a lifetime in days is multiplied by 24 in `int` arithmetic, which wraps | "89478486д" gives −2147483632 hours, so the link is created already expired (the edit path, line 417, is the same) | a lifetime whose hours do not fit an `int` is refused | not executed | ConsoleInput.DaysOverflowWraps | ConsoleInput.ParseLifetimeFixed |
| src/main/UrlShortenerApp.java:133 | the prompt offers "2 дня" as an example, but the unit words at lines 143-155 do not include "дня" (nor "часа") | "2 дня" is refused with the format error | "дня" and "часа" are accepted as unit words | not executed | ConsoleInput.TwoDaysRefused | ConsoleInput.CreateLifetimeFixed |
