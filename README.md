# DuckDuckGo ZeroClickInfo client, modelled in Dafny

This project models the core of the PHP 5 DuckDuckGo API client, which has two parts:

- **The URL builder of `DuckDuckGo\API`.** Its constructor sets these defaults:
  - plain HTTP;
  - host `api.duckduckgo.com`;
  - both flags off.

  `constructURL` builds scheme, host, section and a `urlencode`d query string. `zeroClickQuery` sends the five options `q`, `format`, `no_html`, `no_redirect` and `skip_disambig`.
- **The result mapper `ZeroClickInfo::__construct`.** It turns a decoded instant-answer response into a fixed-shape record:
  - 11 members copied through a rename table;
  - a result type taken from the one-letter `Type` code;
  - the `Results` list as topic records;
  - the `RelatedTopics` list grouped into an insertion-ordered map from category name to topics.

   An unnamed entry goes to the `General` bucket.

The structure follows the PHP code:

- **Classes.**
  - `ZeroClick.ZeroClickInfo` is a class whose constructor runs the four passes of the PHP constructor as methods that update the object's fields. The direct-field, Results and RelatedTopics passes loop over their input, as the PHP does; the type pass is a single branch.
  - `DuckDuckGoApi.API` is a class with the four settings. Its `ConstructURL` appends piece by piece in a loop, as the PHP does.
- **Specification functions.** Every method is proved against a function of the decoded document or the options:
  - `ResultTypeOf`, `ResultsOf` and `RelatedTopicsOf`;
  - `Grouped`, which folds `GroupStep` over the classified entries;
  - `QueryString`.

  Lemmas state what the source promises about those functions: round trips, bounds, which bucket gets which topics, and conservation of topics.
- **Outside services.** The HTTP transport (`getAPIResult`) and `json_decode` are outside the model and come in as function parameters of `API.ZeroClickQuery`.

Modules, one per file:

- `Wrappers`: Option and Result.
- `Json`: the decoded document `Value`; PHP truthiness; `isset`-then-read (`Lookup`); the values `foreach` visits (`Elements`).
- `OrderedMap`: a PHP array with string keys, as an association list. Assigning to a present key keeps its position.
- `Topics`: topic records, PHP array-key conversion of category names, and the specification of the category grouping.
- `ZeroClick`: the constants, the two tables, the record class and its constructor passes.
- `UrlEncoding`: PHP `urlencode` on byte strings, and `urldecode` as its inverse.
- `Query`: the query string `constructURL` produces, and a parser for it.
- `DuckDuckGoApi`: the client class, the query options and the query.
- `Scenarios`: worked responses.

Three behaviours of the code are worth stating plainly:

- **A repeated category name resets that category.** A later entry with the same `Name` replaces the earlier topics (`ZeroClickInfo.php:185` assigns `array()`); topics are not merged. `Topics.LastCategoryWins` states the result.
- **The rename table has 11 entries** (`ZeroClickInfo.php:46-58`).
- **A decoded `{}` is an empty PHP array**, hence falsy. The constructor refuses it with an exception (`ZeroClickInfo.php:143-145`); it does not yield an all-NULL record. `ZeroClick.ZeroClickInfo.Create` and `Scenarios.EmptyObjectQuery` state this.

## Model

| member | source | states |
|---|---|---|
| Json.Find | DuckDuckGo/ZeroClickInfo.php:149 | finds a value only when some member carries that key, and finds none exactly when no member has the key |
| Json.Lookup | DuckDuckGo/ZeroClickInfo.php:149-153 | `isset($v[key]) ? $v[key] : NULL`: gives a value only when `v` is an object holding a non-null value under the key; a missing key gives NULL |
| Json.FindFirst | DuckDuckGo/ZeroClickInfo.php:149 | the value under the first member carrying the key is the one found |
| Json.LookupFinds | DuckDuckGo/ZeroClickInfo.php:149-150 | the converse of `isset`: a non-null value an object holds under the key is what the read yields |
| Json.FalsyValues | DuckDuckGo/ZeroClickInfo.php:143 | `!$data` holds exactly for NULL, FALSE, 0, "", "0" and the empty array (a decoded `[]` or `{}`) |
| OrderedMap.IndexOf | DuckDuckGo/ZeroClickInfo.php:202 | the position of the first entry with the key, or -1 exactly when the key is absent |
| OrderedMap.HasKey | DuckDuckGo/ZeroClickInfo.php:202 | `isset($m[k])` holds exactly when `k` is one of the map's keys |
| OrderedMap.Get | DuckDuckGo/ZeroClickInfo.php:205 | a value is found exactly for present keys; with unique keys it is the value stored with the key |
| OrderedMap.Put | DuckDuckGo/ZeroClickInfo.php:185 | `$m[k] = v`: the keys gain `k`; `k` maps to `v`; every other key keeps its value and every entry keeps its position; the length grows only for a new key; unique keys stay unique |
| OrderedMap.Append | DuckDuckGo/ZeroClickInfo.php:203 | writing an absent key appends it as the last entry and keeps the keys unique |
| OrderedMap.Replace | DuckDuckGo/ZeroClickInfo.php:185 | writing a present key replaces its value in place: same keys, same positions |
| OrderedMap.PutPut | DuckDuckGo/ZeroClickInfo.php:193 | a second write to a key overwrites the first in place |
| Topics.MapTopics | DuckDuckGo/ZeroClickInfo.php:187-194 | one topic per entry, in order, each built from that entry's Text, FirstURL and Icon.URL |
| Topics.MapTopicsSnoc | DuckDuckGo/ZeroClickInfo.php:193 | appending one entry appends its topic |
| Topics.NatDigits | DuckDuckGo/ZeroClickInfo.php:185 | a natural number's key is a non-empty string of decimal digits, without a leading zero, that spells the number |
| Topics.ArrayKeyInjective | DuckDuckGo/ZeroClickInfo.php:185 | distinct integer names give distinct category keys |
| Topics.ArrayKeyNatural | DuckDuckGo/ZeroClickInfo.php:185 | a natural-number name and the string of its digits name the same category |
| Topics.ArrayKeyScalars | DuckDuckGo/ZeroClickInfo.php:185 | TRUE names category "1" like 1, FALSE names "0" like 0, NULL names the empty key like "" |
| Topics.ToTopicValues | DuckDuckGo/ZeroClickInfo.php:188-191 | a topic's description, URL and icon URL are present only when the entry holds Text, FirstURL and Icon.URL; an entry that is not an object gives an all-NULL topic |
| Topics.Classify | DuckDuckGo/ZeroClickInfo.php:183-200 | an entry is unnamed exactly when it has no (or a NULL) Name, and then carries its own topic; a named entry's key is the array key of its Name and its topics are the values under Topics; the entry is skipped exactly when its Name is present but no legal array key |
| Topics.GroupStepKeys | DuckDuckGo/ZeroClickInfo.php:183-206 | `GroupStep`, one iteration of the RelatedTopics loop: one entry adds at most the key it writes (its category, or General) and keeps keys unique |
| Topics.GroupStepWrites | DuckDuckGo/ZeroClickInfo.php:185-194 | a named entry sets its category to exactly its own topics |
| Topics.GroupStepAppendsGeneral | DuckDuckGo/ZeroClickInfo.php:202-205 | an unnamed entry is appended to General, which starts empty when missing |
| Topics.GroupStepUntouched | DuckDuckGo/ZeroClickInfo.php:182-207 | an entry leaves every key it does not write unchanged |
| Topics.GroupedEntriesSnoc | DuckDuckGo/ZeroClickInfo.php:182 | the grouping of one more entry is one more step of the loop |
| Topics.GroupedUniqueKeys | DuckDuckGo/ZeroClickInfo.php:180-207 | the grouped map never holds a key twice |
| Topics.GroupedKeys | DuckDuckGo/ZeroClickInfo.php:182-207 | `Grouped`, the whole RelatedTopics loop: the keys are exactly the legal category names seen, plus General exactly when some entry is unnamed |
| Topics.GeneralBucket | DuckDuckGo/ZeroClickInfo.php:195-206 | when no category is named General, General holds exactly the unnamed entries' topics, in order, and it exists exactly when there is one |
| Topics.LastCategoryWins | DuckDuckGo/ZeroClickInfo.php:185 | a category holds the topics of the last entry with its name, when nothing later writes that key |
| Topics.TopicsConserved | DuckDuckGo/ZeroClickInfo.php:178-208 | with distinct category names, none of them General, the buckets hold as many topics as the entries carry: the unnamed ones plus every category's, none lost |
| ZeroClick.MemberIndex | DuckDuckGo/ZeroClickInfo.php:46-58 | every member has an entry in the rename table |
| ZeroClick.DirectMappingsBijective | DuckDuckGo/ZeroClickInfo.php:46-58 | the table pairs 11 distinct fields with 11 distinct members |
| ZeroClick.ResultTypeOf | DuckDuckGo/ZeroClickInfo.php:159-163 | each of A, C, D, E, N gives its type, in both directions; anything else, or no Type, gives TYPE_NONE |
| ZeroClick.ResultsOf | DuckDuckGo/ZeroClickInfo.php:166-176 | NULL exactly when Results is missing or NULL; otherwise one topic per entry, in order |
| ZeroClick.RelatedTopicsOf | DuckDuckGo/ZeroClickInfo.php:178-208 | NULL exactly when RelatedTopics is missing or NULL; otherwise a map with unique keys, empty for an empty list |
| ZeroClick.ZeroClickInfo.MembersOf | DuckDuckGo/ZeroClickInfo.php:147-154 | each of the 11 members holds its response field's value, or NULL |
| ZeroClick.ZeroClickInfo.constructor | DuckDuckGo/ZeroClickInfo.php:141-209 | for a truthy document (a falsy one throws, see `Create`), the built record matches the document in all four passes |
| ZeroClick.ZeroClickInfo.AssignMember | DuckDuckGo/ZeroClickInfo.php:150 | `$this->$memberName = value` sets that member and no other |
| ZeroClick.ZeroClickInfo.MapDirectFields | DuckDuckGo/ZeroClickInfo.php:148-154 | after the loop every member of the table holds its field's value, or NULL |
| ZeroClick.ZeroClickInfo.MapType | DuckDuckGo/ZeroClickInfo.php:159-163 | the type member is the document's result type |
| ZeroClick.ZeroClickInfo.MapResults | DuckDuckGo/ZeroClickInfo.php:166-176 | when Results is set, the loop leaves exactly the topics of its entries; otherwise the member is untouched |
| ZeroClick.ZeroClickInfo.MapRelatedTopics | DuckDuckGo/ZeroClickInfo.php:179-208 | when RelatedTopics is set, the loop leaves exactly the grouping of its entries; otherwise the member is untouched |
| ZeroClick.ZeroClickInfo.ResetCategory | DuckDuckGo/ZeroClickInfo.php:185-194 | the reset and the appends amount to one grouping step for a named entry |
| ZeroClick.ZeroClickInfo.AddToGeneral | DuckDuckGo/ZeroClickInfo.php:196-205 | creating General when missing and appending amount to one grouping step for an unnamed entry |
| ZeroClick.ZeroClickInfo.Create | DuckDuckGo/ZeroClickInfo.php:141-145 | a falsy document fails with a parse error; a truthy one gives a fresh record that matches it |
| UrlEncoding.HexValue | DuckDuckGo/API.php:82 | a hexadecimal digit's value is below 16 |
| UrlEncoding.EncodeByte | DuckDuckGo/API.php:82 | one byte encodes to one to three bytes, all unreserved, `+` or `%` |
| UrlEncoding.UrlEncode | DuckDuckGo/API.php:82 | `urlencode` output is between one and three times as long as its input |
| UrlEncoding.UrlEncodeAlphabet | DuckDuckGo/API.php:82 | `urlencode` output uses only unreserved bytes, `+` and `%` |
| UrlEncoding.UrlEncodeNoDelimiters | DuckDuckGo/API.php:79-82 | an encoded name or value never holds `?`, `&`, `=`, `#` or a space |
| UrlEncoding.UrlDecode | DuckDuckGo/API.php:82 | the decoder of the encoding is never longer than its input |
| UrlEncoding.UrlRoundTrip | DuckDuckGo/API.php:82 | decoding undoes `urlencode` for every byte string |
| UrlEncoding.UrlEncodeUnreserved | DuckDuckGo/API.php:79 | a name of unreserved bytes, such as `q`, is sent as it is |
| Query.EncodedPairDelimiters | DuckDuckGo/API.php:82 | `name=value` holds one `=`, between the encoded name and value, and no `&` or `?` |
| Query.ContinuationSnoc | DuckDuckGo/API.php:81-83 | one more option appends one more `&name=value` |
| Query.ContinuationHasNoQuestionMark | DuckDuckGo/API.php:81-83 | the pieces after the first option hold no `?` |
| Query.ParsePairRoundTrip | DuckDuckGo/API.php:82 | a piece decodes back to its name and value |
| Query.SplitContinuation | DuckDuckGo/API.php:81-83 | splitting on `&` separates exactly the options' pieces |
| Query.ParsePiecesRoundTrip | DuckDuckGo/API.php:81-83 | the pieces decode back to the options, in order |
| Query.QueryStringShape | DuckDuckGo/API.php:78-84 | with options, the query string is `?`, then the first pair, then the rest, with no further `?` |
| Query.QueryRoundTrip | DuckDuckGo/API.php:78-84 | `QueryString`, the text after the section: the query string is empty exactly when there are no options; otherwise parsing it gives back every name and value, in order |
| DuckDuckGoApi.ZeroClickOptions | DuckDuckGo/API.php:148-154 | the five options in order: q is the query, format json, no_html and skip_disambig 1 or 0 by their flags, no_redirect 1 |
| DuckDuckGoApi.UsableBodyIsTruthy | DuckDuckGo/API.php:156-158 | `IsUsableBody` is PHP truthiness of the fetch result: it holds exactly for a string other than "" and "0", so FALSE, "" and "0" are retrieval errors |
| DuckDuckGoApi.ZeroClickOptionNamesDistinct | DuckDuckGo/API.php:148-154 | every option name is sent once |
| DuckDuckGoApi.AppendPiece | DuckDuckGo/API.php:81-83 | one loop iteration extends the URL by the next option's piece |
| DuckDuckGoApi.API.constructor | DuckDuckGo/API.php:54-60 | defaults: no HTTPS, HTML allowed, disambiguation allowed, host api.duckduckgo.com |
| DuckDuckGoApi.API.ConstructURL | DuckDuckGo/API.php:68-87 | the URL is scheme, host, section, then the query string of the options (nothing for none) |
| DuckDuckGoApi.API.ZeroClickQuery | DuckDuckGo/API.php:146-161 | the URL fetched is the section `/` with the five options. No usable body is a retrieval error; a falsy decoded body is a parse error; otherwise a fresh record matches the decoded body |
| DuckDuckGoApi.DefaultZeroClickURL | DuckDuckGo/API.php:146-154 | with the defaults a query goes to `http://api.duckduckgo.com/`, starts `?q=`, and parses back to the five options with both flags 0 |
| DuckDuckGoApi.QueryStartsWithQ | DuckDuckGo/API.php:79 | a query string whose first option is `q` starts with `?q=` |
| Scenarios.ToTopicEntry | DuckDuckGo/ZeroClickInfo.php:188-191 | an entry with Text, FirstURL and Icon.URL gives the topic of those three values |
| Scenarios.ClassifyCategoryEntry | DuckDuckGo/ZeroClickInfo.php:183-187 | an entry with a string Name and Topics is a named entry with those topics |
| Scenarios.ClassifyTopicEntry | DuckDuckGo/ZeroClickInfo.php:195-200 | an entry without Name is an unnamed topic |
| Scenarios.CategoryThenUnnamed | DuckDuckGo/ZeroClickInfo.php:182-206 | a category followed by an unnamed entry gives the category first, then General |
| Scenarios.RelatedTopicsExample | DuckDuckGo/ZeroClickInfo.php:178-208 | a concrete RelatedTopics list of one category and one unnamed topic maps to those two buckets, in order |
| Scenarios.IrcExample | DuckDuckGo/ZeroClickInfo.php:147-176 | the record for the IRC article answer: its heading and text, type Article, and the other nine direct members, Results and RelatedTopics all NULL |
| Scenarios.IrcQuery | DuckDuckGo/API.php:146-161 | a query whose body decodes to the IRC answer yields the record that models it, whatever the settings: heading IRC, its text, type Article, and every other member NULL |
| Scenarios.EmptyObjectQuery | DuckDuckGo/ZeroClickInfo.php:143-145 | a body decoding to `{}` fails with a parse error |
| Scenarios.NoBodyQuery | DuckDuckGo/API.php:156-158 | a fetch yielding nothing fails with a retrieval error |

## Left out

- Transport: `getAPIResult` (`API.php:95-135`) is not modelled. It chooses among cURL, `http_get` and `fopen`, and its exception when none is available is left out. The fetch is a function parameter of `API.ZeroClickQuery` that yields a body or nothing (PHP's FALSE).
- JSON decoding: `json_decode` is a function parameter. JSON numbers are integers; floats are left out.
- `APIResult.php` documents the response fields and has no behaviour.
- Exceptions are modelled as the two `ApiError` values. Their messages are left out.
- PHP notices and warnings are left out, for example on a missing `Text` or on `foreach` over a scalar. Only their effect is modelled: NULL, or no iteration.
- Json.Lookup: on a string it gives NULL. PHP 5's string-offset reads of a string-valued entry (`$str['Text']`) are left out.
- Json.Lookup: reads the first occurrence of a duplicated JSON key, whereas `json_decode` keeps the last.
- Json.Elements: a helper for PHP `foreach` (`ZeroClickInfo.php:168`, `182`, `187`) with no row of its own; its contract lists the three cases it distinguishes, and the passes that use it are proved against functions built on it.
- Json.Elements: on an object with a duplicated key it visits every occurrence, whereas the array `json_decode` builds holds one entry per key.
- Topics.ArrayKey: an array- or object-valued `Name` skips the entry. This is PHP 5/7's behaviour for an illegal offset. PHP 8 throws a TypeError instead, which is left out. Float names and the conversion of numeric-string keys to integers are left out.
- Type: an array-valued `Type` is an illegal offset in `isset(self::$resultTypeMapping[...])`. The model gives TYPE_NONE for it, as it does for every non-string code.
- DuckDuckGoApi.API.ConstructURL: options are a sequence of pairs. A PHP array cannot repeat a name, while the sequence could; the query options never repeat one (`ZeroClickOptionNamesDistinct`).
- UrlEncoding.UrlDecode: accepts lower-case hexadecimal digits, as `urldecode` does. Only its inverse property over `urlencode` output is proved.
