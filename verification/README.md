# Zabbix parameter lists, macro resolution, map import and web-scenario post fields

This project models four parts of Zabbix and proves properties of each model.

- **Item-key parameter lists** (`src/libs/zbxparam/param.c`). An item key such as
  `key[a,"b",[c,d]]` carries a comma-separated parameter list. The list may hold
  quoted parameters with `\"` escapes and one level of `[...]` arrays.
  - `get_param`, `get_param_len`, `get_param_dyn`, `num_param` and `remove_param`
    scan the list with a three-state machine (init, quoted, unquoted).
  - `get_key_param` and `num_key_param` apply the same scan to the part between
    the first `[` and the last `]` of a key.
  - `replace_key_params_dyn` walks an item key or an SNMP OID. It calls a callback
    on the key name and on every parameter, and splices in any replacement the
    callback returns.
- **Macro resolution in the web frontend** (`ui/include/classes/macros/CMacrosResolver.php`):
  - position-preserving substitution of resolved values into a text, both the
    plain variant and the HTML-fragment variant;
  - seeding every extracted token with the "unresolved" sentinel;
  - the values of user macros, interface macros and item-key host macros;
  - choosing the main interface of highest priority;
  - map-element host and inventory macros;
  - the function-macro join and its text and HTML rendering;
  - the host rewrite of expression macros;
  - numbering the functions of a trigger and sorting its items by expression order;
  - collecting the macros of the item test dialog;
  - resolving `{EVENT.TAGS.<name>}` in media-type URLs with `strtr`.
- **Network map import** (`frontends/php/include/classes/import/importers/CMapImporter.php`):
  - hashing the imported maps by name;
  - the circular map-reference check;
  - stripping elements;
  - splitting the maps into creates and updates;
  - resolving every reference a map holds (icon map, background, element maps,
    element icons, link triggers) with the exception each failure raises;
  - the import driver that ties these together.
- **Web-scenario post fields** (`ui/app/views/js/webscenario.step.edit.js.php`):
  `_parsePostPairsToRaw` and `_parsePostRawToPairs`, which convert between
  name/value pairs and a raw `a=b&c=d` form body. `encodeURIComponent` and
  `decodeURIComponent` are modelled as the UTF-8 percent coding that ECMAScript
  defines for them.

How the source's constructs are represented:
- Where the source mutates a buffer or runs a loop, the model is a `method` with
  that loop, proved equal to a specification function.
- A C string is the `seq<char>` before its NUL. Functions that write into the
  caller's buffer take an `array<char>`.
- The model takes database rows, API answers and the results of the macro
  extractor as input values.
- It takes callbacks and parsers it cannot see as function parameters.

## Model

| member | source | states |
|---|---|---|
| ParamMachine.Ch | src/libs/zbxparam/param.c:110 | reading one past the end of the string gives the terminating NUL, otherwise the character |
| ParamMachine.SkipSpaces | src/libs/zbxparam/param.c:110-111 | stops at the last space of a run: every character skipped is a space and the next one is not |
| ParamMachine.SetType | src/libs/zbxparam/param.c:84-85 | the parameter type is set only while it is still undefined; once set it is never changed |
| ParamMachine.GetParamRun | src/libs/zbxparam/param.c:65-190 | the result code is 0 or 1 and the output only grows while the scan runs |
| ParamMachine.GetParamLenRun | src/libs/zbxparam/param.c:318-414 | the measured length never decreases while the scan runs |
| ParamMachine.NumParamRun | src/libs/zbxparam/param.c:218-286 | the count is 0 (malformed list) or at least the count reached so far |
| ParamMachine.RemoveParamFrom | src/libs/zbxparam/param.c:497-522 | removing a parameter never makes the string longer |
| Param.GetParam | src/libs/zbxparam/param.c:44-191 | result 1 and nothing written for a zero-sized buffer. Otherwise the output always fits the buffer, and the result is 0 exactly when the parameter exists and fits; then the output is that of the unbounded scan. For a non-empty buffer the type is always that of the unbounded scan, also when the call fails on a syntax error or an overflow after the type was recorded |
| ParamLemmas.TypeKept | src/libs/zbxparam/param.c:84-85 | a recorded parameter type is the type the scan ends with |
| ParamLemmas.StopType | src/libs/zbxparam/param.c:75-124 | a pass that hits a syntax error or overflows the buffer has already recorded the type that the unbounded scan ends with |
| Param.GetParamLen | src/libs/zbxparam/param.c:307-415 | the result code, and the length on success, are those of the length scan |
| Param.GetParamDyn | src/libs/zbxparam/param.c:434-448 | a string is returned exactly when the parameter exists; it is the parameter and its type, otherwise the type is left unchanged |
| Param.NumParam | src/libs/zbxparam/param.c:208-287 | a NULL list has 0 parameters; otherwise the count is that of the scan |
| Param.RemoveParam | src/libs/zbxparam/param.c:491-523 | the buffer afterwards holds the list without the num-th parameter, NUL-terminated, and nothing after that NUL changes |
| Param.KeyParamList | src/libs/zbxparam/param.c:548-552 | there is no list when `[` or `]` is missing or the first `[` comes after the last `]`; otherwise it is the text strictly between them |
| Param.GetKeyParam | src/libs/zbxparam/param.c:543-559 | the key is left as it was. Result 1 when there is no list; otherwise the result and output are those of get_param on the list |
| Param.NumKeyParam | src/libs/zbxparam/param.c:574-593 | 0 for a NULL key or a key without a list; otherwise the parameter count of the list. The key is left as it was |
| Param.SkipSpacesLoop | src/libs/zbxparam/param.c:110-111 | the skip loop stops where SkipSpaces says |
| Param.CStrNoNul | src/libs/zbxparam/param.c:65 | the string read from a buffer holds no NUL and ends at the first NUL |
| ParamLemmas.LenAgrees | src/libs/zbxparam/param.c:307-415 | get_param_len reports the same result code as get_param, and exactly the length of get_param's output |
| ParamLemmas.GetParamPlain | src/libs/zbxparam/param.c:65-190 | on a list without quotes or brackets, parameter num is the num-th comma-separated piece with leading spaces dropped; it is typed string unless empty, and result 1 means there are fewer pieces |
| ParamLemmas.GetParamNonPositive | src/libs/zbxparam/param.c:65 | a parameter number of 0 or less reads nothing and succeeds with an undefined type |
| ParamLemmas.NumParamPlain | src/libs/zbxparam/param.c:208-287 | on a plain list the count is the number of commas plus one, the number of comma-separated pieces |
| ParamLemmas.NumParamBlank | src/libs/zbxparam/param.c:208-287 | a list of spaces only has one parameter |
| ParamLists.NumParamStray | src/libs/zbxparam/param.c:245-246 | after any text without quotes or brackets, a `]` outside an array makes the list malformed (count 0), whatever follows |
| ParamLists.NumParamNested | src/libs/zbxparam/param.c:228-233 | a `[` that begins an element of an open array (only one level is allowed) makes the list malformed, whatever follows; any plain parameters may precede the array |
| ParamLists.NumParamUnterminated | src/libs/zbxparam/param.c:278-286 | a quote that begins a parameter, after any plain parameters, and is never closed makes the list malformed |
| ParamLists.NumParamUnclosed | src/libs/zbxparam/param.c:278-286 | an array that begins a parameter, after any plain parameters, and is never closed makes the list malformed |
| ParamLists.NumPlainToComma | src/libs/zbxparam/param.c:218-276 | a segment without quotes or brackets that ends with `,` leaves the scan in state init at the same depth; outside an array each of its commas adds a parameter |
| ParamLists.NumParamJoin | src/libs/zbxparam/param.c:208-287 | for a well-formed list, a `,` and a rest, the count is the sum of the two counts, and the whole list is malformed exactly when the rest is. So a malformed parameter after any well-formed ones makes the whole list malformed |
| ParamLists.GetParamJoin | src/libs/zbxparam/param.c:44-191 | parameter count-plus-k of a well-formed list, a `,` and a rest is parameter k of the rest: same result code, text and type |
| ParamLemmas.GetParamStopsEarly | src/libs/zbxparam/param.c:65 | get_param stops scanning once past the wanted parameter: `a,]` is malformed for num_param, yet get_param still returns `a` for parameter 1 |
| ParamLists.QuotedBody | src/libs/zbxparam/param.c:129-158 | inside quotes the scan runs to the closing quote, writing the text with each `\"` unescaped at the top level and the text as written inside an array |
| ParamLists.GetParamQuoted | src/libs/zbxparam/param.c:129-158 | a quoted first parameter, after any spaces and before spaces and a `,` or the end, yields its text without the enclosing quotes, each `\"` turned into `"` and every other backslash kept, typed string, with result 0 |
| ParamLists.GetParamQuotedAfter | src/libs/zbxparam/param.c:44-191 | the same for the parameter right after any well-formed list and `,` |
| ParamLists.ArrayRun | src/libs/zbxparam/param.c:91-128 | inside an array the scan copies each bare or quoted element as written, with the commas between them, and the closing `]` followed by spaces and a `,` or the end completes the parameter |
| ParamLists.GetParamArray | src/libs/zbxparam/param.c:91-128 | an array first parameter of bare and quoted elements yields the text between its brackets as written (quotes, backslashes and commas included), typed array, with result 0 |
| ParamLists.GetParamArrayAfter | src/libs/zbxparam/param.c:44-191 | the same for the array right after any well-formed list and `,` |
| ParamLemmas.RemoveParamPlain | src/libs/zbxparam/param.c:491-523 | on a list without quotes, removing parameter num drops the num-th comma-separated piece and one adjoining comma; an out-of-range num changes nothing |
| ParamLists.RemoveParamQuoted | src/libs/zbxparam/param.c:491-523 | on a list whose parameters mix plain text and quoted strings (commas inside quotes included), removing parameter num drops exactly the num-th parameter and one adjoining comma: the comma after it for the first, the comma before it otherwise; a num outside the list changes nothing |
| ParamLemmas.KeptFirst | src/libs/zbxparam/param.c:502-507 | removing the first parameter also drops the comma after it |
| KeyParams.Splice | src/libs/zbxparam/param.c:458-478 | the text before the parameter and after it is kept, and the parameter is replaced by the new value |
| KeyParams.InvokeKeepsOutside | src/libs/zbxparam/param.c:458-478 | a callback call rewrites only the span of its parameter, with the replacement or the original text, and resumes after it |
| KeyParams.Decimal | src/libs/zbxparam/param.c:749-750 | the position printed in an error message is a non-empty run of decimal digits |
| KeyParams.DecimalRoundTrip | src/libs/zbxparam/param.c:749-750 | the printed position reads back as the same number |
| KeyParams.KeyNameEnd | src/libs/zbxparam/param.c:630-631 | the key name is the longest run of key characters at the start |
| KeyParams.OidHeadEnd | src/libs/zbxparam/param.c:640-663 | the OID head ends at the end of the text or at a `[` |
| KeyParams.NoReplacementKeepsData | src/libs/zbxparam/param.c:612-756 | a callback that never returns a replacement leaves the text unchanged |
| KeyParams.HeadIsFirstCall | src/libs/zbxparam/param.c:628-665 | for an SNMP OID, or an item key whose name is followed by `[` or the end, the first callback call is on the head, at level 0, parameter 0 |
| KeyParams.ItemKeyRejected | src/libs/zbxparam/param.c:628-638 | an item key with an empty name, or a name followed by anything but `[`, fails at once with "Invalid item key at position N" and no callback call |
| KeyParams.EmptyKeyText | src/libs/zbxparam/param.c:749-750 | the error text for an empty item key names position 0 |
| KeyParams.SucceedMeansCallsOk | src/libs/zbxparam/param.c:667-755 | when the walk succeeds there is no error, at least one call was made, and every callback call succeeded |
| KeyParams.KeyStart | src/libs/zbxparam/param.c:628-665 | an item key beginning `k[` reports the name `k` at level 0, parameter 0, and the scan continues at the `[` |
| KeyParams.RenameExample | src/libs/zbxparam/param.c:612-756 | on `k[a,"b"]` the callbacks see the name, then `a` at level 1 parameter 1, then the quoted `"b"` at parameter 2, and `a` is renamed |
| KeyParams.TrailingExample | src/libs/zbxparam/param.c:704-724 | a worked example: on the literal key `k[b]x` the callback sees `k` and `b`, then the walk fails at position 4, the `x` |
| KeyParams.StepRefuses | src/libs/zbxparam/param.c:667-722 | a pass leaves the loop early exactly at a `[` that would open a third level, at a `]` after a parameter at level 0, or at anything but a space, `,` or `]` after a parameter |
| KeyParams.RefusedFails | src/libs/zbxparam/param.c:744-755 | from any configuration where the walk meets such a character, it fails with the error at that character's position, and the callback is not called again |
| KeyParams.TrailingRefused | src/libs/zbxparam/param.c:704-722 | for any item key `name[param]` with a bare parameter, followed by text that does not begin with a space or `,`, the walk fails at the first character after the `]` (a second `]` is redundant, anything else is trailing text), after the callback has seen the name and the parameter |
| KeyParams.NestedRefused | src/libs/zbxparam/param.c:680-685 | for any item key name, a list that opens with `[[[` fails at the third `[`, after the callback has seen the name: arrays nest one level deep only |
| KeyParams.RunLoop | src/libs/zbxparam/param.c:667-742 | the loop, from any configuration it can be in, ends with the outcome of the specification walk |
| KeyParams.ReplaceKeyParam | src/libs/zbxparam/param.c:458-478 | one callback call and splice, as the specification step defines |
| KeyParams.ScanKeyName | src/libs/zbxparam/param.c:630-631 | the scan loop stops at the end of the key name |
| KeyParams.ScanOidHead | src/libs/zbxparam/param.c:640-663 | the scan loop stops at the end of the OID head |
| KeyParams.ReplaceKeyParamsDyn | src/libs/zbxparam/param.c:612-756 | the return value and the rewritten text are those of the specification walk. An error message is written only when the walk fails and the caller passed an error buffer, and then it is the walk's message cut to that buffer |
| KeyParams.Written | src/libs/zbxparam/param.c:746-750 | the text left in an error buffer is a prefix of the message, shorter than the buffer, and the whole message when it fits; a zero-sized buffer receives nothing |
| Uri.HexDigit | ui/app/views/js/webscenario.step.edit.js.php:212 | the digit emitted for a value below 16 is a hex digit that reads back as that value |
| Uri.Utf8 | ui/app/views/js/webscenario.step.edit.js.php:212 | a character encodes to one to four bytes |
| Uri.Encode | ui/app/views/js/webscenario.step.edit.js.php:212 | only the empty string encodes to the empty string |
| Uri.DecodeEncode | ui/app/views/js/webscenario.step.edit.js.php:212-255 | decoding the encoding of any string gives the string back |
| Uri.EncodeAlphabet | ui/app/views/js/webscenario.step.edit.js.php:212 | an encoding holds only unreserved characters and `%`, never `&`, `=` or `+` |
| Uri.DecodePlain | ui/app/views/js/webscenario.step.edit.js.php:254-255 | text without `%` decodes to itself |
| Uri.DecodeTruncated | ui/app/views/js/webscenario.step.edit.js.php:254-255 | a truncated multi-byte sequence is a decoding error |
| WebScenario.ReplaceAll | ui/app/views/js/webscenario.step.edit.js.php:212 | replacing a character that does not occur changes nothing |
| WebScenario.PairsToRaw | ui/app/views/js/webscenario.step.edit.js.php:202-222 | the loop computes the specification conversion of pairs to a raw body |
| WebScenario.PairsToRawResult | ui/app/views/js/webscenario.step.edit.js.php:202-222 | the conversion fails exactly when some pair has an empty name, with the "no name" error; otherwise it is the fields joined by `&` |
| WebScenario.RawToPairs | ui/app/views/js/webscenario.step.edit.js.php:224-259 | the loop computes the specification conversion of a raw body to pairs |
| WebScenario.RoundTrip | ui/app/views/js/webscenario.step.edit.js.php:202-259 | for named pairs with printable text, converting to raw and back gives the same pairs, with quotes turned into `%27` and `%22` |
| WebScenario.RoundTripPlain | ui/app/views/js/webscenario.step.edit.js.php:202-259 | pairs without quote characters survive the round trip unchanged |
| WebScenario.ParseFromSuccess | ui/app/views/js/webscenario.step.edit.js.php:231-257 | the raw body converts exactly when every `&`-separated field converts |
| WebScenario.ParseFromError | ui/app/views/js/webscenario.step.edit.js.php:231-251 | a failure is the error of the first field that fails |
| WebScenario.ParseFieldUnnamed | ui/app/views/js/webscenario.step.edit.js.php:234-236 | a field fails with the "no name" error exactly when it is empty or starts with `=` |
| WebScenario.ParseFieldLongName | ui/app/views/js/webscenario.step.edit.js.php:234-240 | a field is refused for its name length exactly when its name part is non-empty and longer than 255 UTF-16 code units |
| WebScenario.ParseFieldNamed | ui/app/views/js/webscenario.step.edit.js.php:234-236 | every pair a field converts to has a non-empty name |
| WebScenario.RawToPairsNamed | ui/app/views/js/webscenario.step.edit.js.php:229-258 | a non-empty body that converts gives one named pair per `&`-separated field |
| WebScenario.RawToPairsEmpty | ui/app/views/js/webscenario.step.edit.js.php:225-227 | the result is the single pair with empty name and value exactly when the body is empty |
| WebScenario.ParseFieldNoLowPct | ui/app/views/js/webscenario.step.edit.js.php:246-251 | a field that converts holds no `%0` or `%1` anywhere |
| WebScenario.ParseFieldLowPct | ui/app/views/js/webscenario.step.edit.js.php:246-251 | a field with an acceptable name and a `%0` or `%1` anywhere is refused as not properly encoded |
| WebScenario.RawToPairsLowPct | ui/app/views/js/webscenario.step.edit.js.php:229-251 | a body with a `%0` or `%1` anywhere is refused |
| WebScenario.ParseFieldMalformed | ui/app/views/js/webscenario.step.edit.js.php:246-251 | a field with two or more `=` is "not properly encoded" |
| WebScenario.RawToPairsUnnamedFirst | ui/app/views/js/webscenario.step.edit.js.php:231-236 | a body starting with `&` or `=` is refused for a missing name |
| WebScenario.RawSingle | ui/app/views/js/webscenario.step.edit.js.php:231-258 | a body without `&` is one field: its pair or its error |
| WebScenario.RawToPairsPlusIsSpace | ui/app/views/js/webscenario.step.edit.js.php:254-255 | `+` in a name or value decodes to a space |
| WebScenario.PlusIsSpace | ui/app/views/js/webscenario.step.edit.js.php:254-255 | `a+b=c+d` gives the pair (`a b`, `c d`) |
| WebScenario.TwoEqualsRefused | ui/app/views/js/webscenario.step.edit.js.php:246-251 | worked example: the body `a=b=c` is refused as not properly encoded |
| WebScenario.ControlCharRefused | ui/app/views/js/webscenario.step.edit.js.php:247-251 | worked example: the body `a=%0A` is refused as not properly encoded |
| WebScenario.RawToPairsUriError | ui/app/views/js/webscenario.step.edit.js.php:254-255 | a value that does not decode raises the URI error |
| WebScenario.UnnamedPairRefused | ui/app/views/js/webscenario.step.edit.js.php:206-208 | a pair with an empty name is refused even after named pairs |
| MapImporter.Add | frontends/php/include/classes/import/importers/CMapImporter.php:32 | adding a map to the hash keys it by its name, replacing an earlier map of that name |
| MapImporter.ToHashFromLastWins | frontends/php/include/classes/import/importers/CMapImporter.php:32 | when names repeat, the last map of each name is the one kept |
| MapImporter.ToHashFromKeeps | frontends/php/include/classes/import/importers/CMapImporter.php:32 | a name the list does not mention keeps its entry |
| MapImporter.CheckCircularRecursive | frontends/php/include/classes/import/importers/CMapImporter.php:115-146 | (as written) an element that is not a map element never reports a cycle, and a reported path starts and ends with the same map |
| MapImporter.CheckCircularRecursiveSound | frontends/php/include/classes/import/importers/CMapImporter.php:115-146 | every cycle the as-written search reports is a real cycle of map references |
| MapImporter.CheckCircularAll | frontends/php/include/classes/import/importers/CMapImporter.php:115-146 | (corrected) the search that checks every element of a referenced map; non-map elements report nothing, and a reported path starts and ends with the same map |
| MapImporter.CheckCircularAllSound | frontends/php/include/classes/import/importers/CMapImporter.php:115-146 | every cycle the corrected search reports is a real cycle |
| MapImporter.CheckCircularAllComplete | frontends/php/include/classes/import/importers/CMapImporter.php:115-146 | the corrected search reports a cycle whenever a reference chain from the element leads back to a map on the current path |
| MapImporter.CheckCircularMapReferences | frontends/php/include/classes/import/importers/CMapImporter.php:89-101 | the check reports the circular-reference error for the first cycle found, in import order, and nothing when there is none |
| MapImporter.FirstCycleInAsWritten | frontends/php/include/classes/import/importers/CMapImporter.php:92-99 | (as written) the elements of one map yield a looping path, and none exactly when the recursive search of every element reports none |
| MapImporter.FirstCycleIn | frontends/php/include/classes/import/importers/CMapImporter.php:92-99 | (corrected) the same for the search that checks every element |
| MapImporter.FirstCycleAsWritten | frontends/php/include/classes/import/importers/CMapImporter.php:89-101 | (as written) the maps in import order yield a looping path, and none exactly when no map with elements yields one |
| MapImporter.FirstCycle | frontends/php/include/classes/import/importers/CMapImporter.php:89-101 | (corrected) the same over the corrected element search |
| MapImporter.FirstCycleSound | frontends/php/include/classes/import/importers/CMapImporter.php:89-101 | a reported cycle is a real cycle |
| MapImporter.CycleReported | frontends/php/include/classes/import/importers/CMapImporter.php:89-101 | every cycle among the imported maps is reported |
| MapImporter.NoCycleReported | frontends/php/include/classes/import/importers/CMapImporter.php:89-101 | the check is silent exactly when the maps have no cycle |
| MapImporter.FirstElementOnly | frontends/php/include/classes/import/importers/CMapImporter.php:139-143 | two maps that reference each other through their second element form a cycle that the as-written check misses and the corrected check reports |
| MapImporter.WithoutElements | frontends/php/include/classes/import/importers/CMapImporter.php:155-162 | a stripped map has no elements and every other field unchanged |
| MapImporter.GetMapsWithoutElements | frontends/php/include/classes/import/importers/CMapImporter.php:155-162 | every imported map, under the same name, with its elements removed |
| MapImporter.SplitMaps | frontends/php/include/classes/import/importers/CMapImporter.php:46-55 | the loop builds the create list, the update list and the maps with known ids recorded |
| MapImporter.RecordIdsMeaning | frontends/php/include/classes/import/importers/CMapImporter.php:47-50 | a map the referencer knows gets its database id; the others keep theirs |
| MapImporter.SplitPartition | frontends/php/include/classes/import/importers/CMapImporter.php:46-55 | every imported map goes to exactly one of the two lists |
| MapImporter.CreateListUnknown | frontends/php/include/classes/import/importers/CMapImporter.php:52-54 | every map to create is unknown to the referencer |
| MapImporter.UpdateListKnown | frontends/php/include/classes/import/importers/CMapImporter.php:47-50 | every map to update is known and carries its database id |
| MapImporter.TraverseSuccess | frontends/php/include/classes/import/importers/CMapImporter.php:194-284 | resolving a list succeeds exactly when every entry resolves, giving each entry's result in place |
| MapImporter.TraverseFailure | frontends/php/include/classes/import/importers/CMapImporter.php:194-284 | a failure is the exception of the first entry that fails |
| MapImporter.ResolveIconIds | frontends/php/include/classes/import/importers/CMapImporter.php:244-255 | the loop over the four icon slots computes the specification icon resolution |
| MapImporter.ResolveSelements | frontends/php/include/classes/import/importers/CMapImporter.php:193-257 | the loop over the elements computes the specification element resolution |
| MapImporter.ResolveLinkTriggers | frontends/php/include/classes/import/importers/CMapImporter.php:265-280 | the loop over a link's triggers computes the specification trigger resolution |
| MapImporter.ResolveLinks | frontends/php/include/classes/import/importers/CMapImporter.php:258-283 | the loop over the links computes the specification link resolution |
| MapImporter.ResolveMapReferences | frontends/php/include/classes/import/importers/CMapImporter.php:173-285 | the method computes the specification map resolution |
| MapImporter.ResolveElementIdMeaning | frontends/php/include/classes/import/importers/CMapImporter.php:196-236 | an element's reference resolves exactly when its target is known; only its element id changes |
| MapImporter.ResolveIconsSuccess | frontends/php/include/classes/import/importers/CMapImporter.php:244-255 | icon resolution succeeds exactly when every icon an element names is a known image |
| MapImporter.ResolveIconsIds | frontends/php/include/classes/import/importers/CMapImporter.php:244-255 | each named icon's id is the image id; other icon ids are kept |
| MapImporter.ResolveSelementMeaning | frontends/php/include/classes/import/importers/CMapImporter.php:193-257 | an element resolves exactly when its target and icons are known, and the result carries their ids |
| MapImporter.ResolveLinkMeaning | frontends/php/include/classes/import/importers/CMapImporter.php:258-283 | a link resolves exactly when all its triggers are known. A link without triggers drops the trigger list |
| MapImporter.ResolveMapMeaning | frontends/php/include/classes/import/importers/CMapImporter.php:173-285 | a map resolves exactly when its icon map, background, elements and links resolve, and the result carries every resolved id |
| MapImporter.Prepare | frontends/php/include/classes/import/importers/CMapImporter.php:41-68 | preparing covers every imported map name |
| MapImporter.PrepareMaps | frontends/php/include/classes/import/importers/CMapImporter.php:41-68 | the method computes the specification preparation: API writes, maps with ids, updated referencer |
| MapImporter.RegisterCreatedMaps | frontends/php/include/classes/import/importers/CMapImporter.php:58-63 | each created map is registered under its new id, and that id is recorded in the map |
| MapImporter.UpdateEach | frontends/php/include/classes/import/importers/CMapImporter.php:71-74 | the final loop resolves and writes each map in order, stopping at the first exception |
| MapImporter.Import | frontends/php/include/classes/import/importers/CMapImporter.php:31-78 | the method computes the specification import: API calls and error |
| MapImporter.ImportCircular | frontends/php/include/classes/import/importers/CMapImporter.php:31-34 | with a cycle, the import makes no API call and fails with a circular-reference error naming a real cycle |
| MapImporter.PrepareKnowsAll | frontends/php/include/classes/import/importers/CMapImporter.php:41-63 | with createMissing, every imported map is known afterwards and previously known maps stay known |
| MapImporter.PrepareOnlyIds | frontends/php/include/classes/import/importers/CMapImporter.php:41-63 | preparation changes nothing in a map but its id |
| MapImporter.ImportWritesAll | frontends/php/include/classes/import/importers/CMapImporter.php:31-78 | without cycles, with createMissing, and when every reference is either imported or already known, the import finishes without an exception |
| MapImporter.UpdateAllSuccess | frontends/php/include/classes/import/importers/CMapImporter.php:71-74 | the final loop raises no exception exactly when every map resolves |
| MacroRewrite.Lookup | ui/include/classes/macros/CMacrosResolver.php:2529-2538 | a known macro gets its value; an unknown one is skipped, or replaced by a fixed default where the loop supplies one |
| MacroRewrite.Rewrite | ui/include/classes/macros/CMacrosResolver.php:350-361 | replacing the positioned macros from the last to the first gives the splice of the whole text |
| MacroRewrite.SpliceKeepsGap | ui/include/classes/macros/CMacrosResolver.php:355-358 | every character between macros survives, moved by the length change of the macros before it |
| MacroRewrite.SpliceSplit | ui/include/classes/macros/CMacrosResolver.php:355-358 | the k-th macro is replaced in place by its value, its default, or itself |
| MacroRewrite.SpliceIdentity | ui/include/classes/macros/CMacrosResolver.php:355-358 | a text with no macros, or none with a value when unknowns are kept, is unchanged |
| MacroRewrite.SeededPolicyIrrelevant | ui/include/classes/macros/CMacrosResolver.php:685-691 | when every positioned macro has a value, the missing-value policy makes no difference |
| MacroRewrite.NoEmptyLiteralMeaning | ui/include/classes/macros/CMacrosResolver.php:671-673 | the fragment list holds no empty literal exactly when every literal is non-empty |
| MacroRewrite.HtmlFragments | ui/include/classes/macros/CMacrosResolver.php:668-684 | the fragments concatenate to the plain rewrite, the value fragments are the known values in order, the list ends in a literal, and no earlier literal is empty |
| MacroRewrite.SeedTokens | ui/include/classes/macros/CMacrosResolver.php:579-585 | the loop seeds every token with the sentinel and queues a lookup for each token whose function number is known |
| MacroRewrite.SeededMeaning | ui/include/classes/macros/CMacrosResolver.php:579-585 | after seeding, the tokens hold the sentinel and every other entry is unchanged |
| MacroRewrite.RequestsMeaning | ui/include/classes/macros/CMacrosResolver.php:582-584 | every token with a known function number is queued, and every queued lookup comes from such a token |
| MacroRewrite.Resolved | ui/include/classes/macros/CMacrosResolver.php:629-632 | the lookups change values but add no tokens |
| MacroRewrite.LookupMissIsUnresolved | ui/include/classes/macros/CMacrosResolver.php:579-632 | after seeding and lookup, a token holds what was found for it, or else the non-empty sentinel |
| MacroValues.FullName | ui/include/classes/macros/CMacrosResolver.php:183-194 | the loop computes the full-name specification |
| MacroValues.FullNameCases | ui/include/classes/macros/CMacrosResolver.php:183-194 | the full name is the username alone, or the non-empty name and surname followed by the username in parentheses |
| MacroValues.UserMacroValue | ui/include/classes/macros/CMacrosResolver.php:176-203 | exactly the five user macros have a value; `{USER.ALIAS}` and `{USER.USERNAME}` are the username |
| MacroValues.InterfaceMacroValue | ui/include/classes/macros/CMacrosResolver.php:321-334 | exactly the four interface macros have a value |
| MacroValues.ConnIsIpOrDns | ui/include/classes/macros/CMacrosResolver.php:324-331 | `{HOST.CONN}` is the IP when the interface uses IP, else the DNS name; `{IPADDRESS}` equals `{HOST.IP}` |
| MacroValues.PickByPriority | ui/include/classes/macros/CMacrosResolver.php:1524-1531 | the loop computes the per-host interface pick |
| MacroValues.PickedIsFirstTop | ui/include/classes/macros/CMacrosResolver.php:1524-1531 | a host gets an interface exactly when it has a main one, and the pick is the first main interface of highest priority |
| MacroValues.TopPriorityInterface | ui/include/classes/macros/CMacrosResolver.php:2262-2276 | the loop computes the map-element interface pick |
| MacroValues.TopIsPositive | ui/include/classes/macros/CMacrosResolver.php:2262-2276 | there is a pick exactly when some main interface has a positive priority, and the pick's priority is positive |
| MacroValues.TopIsFirstBest | ui/include/classes/macros/CMacrosResolver.php:2262-2276 | the pick is the first main interface of highest priority |
| MacroValues.ItemInterface | ui/include/classes/macros/CMacrosResolver.php:1541-1549 | the item's own interface when it has a known one, otherwise the host's picked interface, and none when interface macros are not wanted |
| MacroValues.ItemKeyMacroValue | ui/include/classes/macros/CMacrosResolver.php:1551-1580 | host macros take the host name or technical name. Interface macros take the interface's address. Anything else keeps its current value |
| MacroValues.HostElementValue | ui/include/classes/macros/CMacrosResolver.php:2480-2506 | no host gives no value. Interface macros need an interface, and `HOST.CONN` is its connection address. An inventory macro needs an entry in the inventory table `InventoryMacros` and inventory not disabled |
| MacroValues.InventoryFieldRead | ui/include/classes/macros/CMacrosResolver.php:2500-2506 | an inventory-table macro that is not a host or interface macro reads the field the table names for it, "" when the host lacks that field, and gives no value without a host or with inventory disabled |
| MacroValues.SameFieldSameValue | ui/include/classes/macros/CMacrosResolver.php:2586-2670 | two inventory macros that the table maps to the same field resolve alike on every host, as the deprecated `{PROFILE.*}` aliases do |
| MacroValues.ContactMacros | ui/include/classes/macros/CMacrosResolver.php:2589-2592 | `{PROFILE.CONTACT}` and `{INVENTORY.CONTACT}` both give the host's `contact` field, or "" without one, and nothing when inventory is disabled or there is no host |
| MacroFunctions.BindFunctions | ui/include/classes/macros/CMacrosResolver.php:1007-1030 | exactly the functions whose item and host exist are kept, each with its host name and item key |
| MacroFunctions.FunctionText | ui/include/classes/macros/CMacrosResolver.php:1094-1100 | without a placeholder, the text is the function name and its parameter in parentheses |
| MacroFunctions.FunctionMacroValue | ui/include/classes/macros/CMacrosResolver.php:1040-1104 | an unbound function macro is `*ERROR*`; a bound one is its rendered text |
| MacroFunctions.FunctionHtml | ui/include/classes/macros/CMacrosResolver.php:1079-1093 | the fragments open with the bold name and `(` and close with a bold `)`. The item link is present exactly when the parameter has a placeholder, and no inner fragment is empty |
| MacroFunctions.HtmlMatchesText | ui/include/classes/macros/CMacrosResolver.php:1079-1100 | the HTML fragments read as exactly the text rendering |
| MacroFunctions.MatchLen | ui/include/classes/macros/CMacrosResolver.php:1258-1270 | a host pattern match lies inside the text |
| MacroFunctions.ReplaceFirstNoMatch | ui/include/classes/macros/CMacrosResolver.php:1279 | without a match, the text is unchanged |
| MacroFunctions.ReplaceFirstAt | ui/include/classes/macros/CMacrosResolver.php:1279 | only the first match is replaced |
| MacroFunctions.ResolveExpressionMacroHost | ui/include/classes/macros/CMacrosResolver.php:1255-1283 | a literal host leaves everything unchanged, and so does a reference to a missing item; otherwise the host becomes the referenced item's host |
| MacroFunctions.FirstHostTwoWays | ui/include/classes/macros/CMacrosResolver.php:1268 | references 0 and 1 both mean the first item |
| MacroFunctions.ResolvedMacroShape | ui/include/classes/macros/CMacrosResolver.php:1276-1279 | the first host pattern in the macro is replaced by `/host/` and the rest is kept |
| MacroUrls.FirstValues | ui/include/classes/macros/CMacrosResolver.php:2891-2894 | the loop computes the first-value-per-tag map |
| MacroUrls.FirstValueWins | ui/include/classes/macros/CMacrosResolver.php:2891-2894 | a tag's value is the value of its first occurrence |
| MacroUrls.TagValuesDomain | ui/include/classes/macros/CMacrosResolver.php:2891-2894 | exactly the tags that occur have a value |
| MacroUrls.LongestKey | ui/include/classes/macros/CMacrosResolver.php:2917 | the key chosen at a position is a key, and none is found only when no key starts there |
| MacroUrls.LongestKeyIsLongest | ui/include/classes/macros/CMacrosResolver.php:2917 | the chosen key is the longest one at that position |
| MacroUrls.StrTrNoKey | ui/include/classes/macros/CMacrosResolver.php:2917 | text in which no key occurs is unchanged |
| MacroUrls.StrTrReplacesLongest | ui/include/classes/macros/CMacrosResolver.php:2917 | the longest key at a position is replaced, and scanning resumes after it without rescanning the replacement |
| MacroUrls.AllTokens | ui/include/classes/macros/CMacrosResolver.php:2870-2882 | every URL's tokens are among all tokens |
| MacroUrls.TokenValues | ui/include/classes/macros/CMacrosResolver.php:2878-2903 | every token starts as null and takes the value of its tag when the event has that tag |
| MacroUrls.Pairs | ui/include/classes/macros/CMacrosResolver.php:2917 | the replacement pairs hold every token, with its tag value |
| MacroUrls.ResolveUrl | ui/include/classes/macros/CMacrosResolver.php:2910-2921 | a URL without tokens is kept as is; a URL is dropped exactly when one of its tokens is still null |
| MacroUrls.AllResolved | ui/include/classes/macros/CMacrosResolver.php:2911-2915 | the check says yes exactly when every token of the URL has a value |
| MacroUrls.EventUrls | ui/include/classes/macros/CMacrosResolver.php:2857-2927 | an event's URL list is the resolved URLs it keeps, in order |
| MacroUrls.KeptLength | ui/include/classes/macros/CMacrosResolver.php:2908-2923 | as many URLs are kept as resolve |
| MacroUrls.NoTokensUnchanged | ui/include/classes/macros/CMacrosResolver.php:2910 | URLs without tag macros are all kept unchanged |
| MacroUrls.AllResolvedKeepsAll | ui/include/classes/macros/CMacrosResolver.php:2908-2923 | when every token has a value, every URL is kept and resolved in place |
| MacroItems.NumberFunctions | ui/include/classes/macros/CMacrosResolver.php:2695-2709 | the loops compute the function numbering |
| MacroItems.NumberIdsKeeps | ui/include/classes/macros/CMacrosResolver.php:2701-2706 | numbering a trigger adds its function ids and keeps earlier numbers |
| MacroItems.NumberIdsInOrder | ui/include/classes/macros/CMacrosResolver.php:2701-2706 | the i-th function id of a trigger gets number i and that trigger's key |
| MacroItems.ItemOrders | ui/include/classes/macros/CMacrosResolver.php:2723-2730 | the loop computes the item order per trigger |
| MacroItems.FirstRowWins | ui/include/classes/macros/CMacrosResolver.php:2723-2730 | an item's position is the number of the first function row that names it |
| MacroItems.ItemOrderDomain | ui/include/classes/macros/CMacrosResolver.php:2723-2730 | only items that some row names get a position |
| MacroItems.SortByRank | ui/include/classes/macros/CMacrosResolver.php:2735-2740 | the sorted items are a permutation of the items |
| MacroItems.SortByRankAscending | ui/include/classes/macros/CMacrosResolver.php:2735-2740 | the sorted items ascend by position, an item without a position counting as 0 |
| MacroItems.SortWithoutOrder | ui/include/classes/macros/CMacrosResolver.php:2735-2740 | with no positions known, the order is left as it was |
| MacroItems.SortItemsByExpressionOrder | ui/include/classes/macros/CMacrosResolver.php:2683-2743 | every trigger keeps its functions; its items are a permutation ascending by expression position, and a trigger with fewer than two items is untouched |
| MacroItems.SortTriggers | ui/include/classes/macros/CMacrosResolver.php:2732-2741 | the per-trigger loop sorts each trigger with two or more items and leaves the rest |
| MacroItems.NoFunctionsUnsorted | ui/include/classes/macros/CMacrosResolver.php:2711-2713 | with no numbered functions the triggers are returned unsorted, which meets the sorted contract |
| MacroItems.StepTextsMeaning | ui/include/classes/macros/CMacrosResolver.php:2769-2777 | a text is collected exactly when some preprocessing step uses it as a parameter or an error-handler parameter |
| MacroItems.CollectStepTexts | ui/include/classes/macros/CMacrosResolver.php:2769-2777 | the loop collects the step texts |
| MacroItems.Found | ui/include/classes/macros/CMacrosResolver.php:2790-2828 | the macros found are the supported, user and LLD ones. LLD macros map to themselves and win over user macros, which win over supported values |
| MacroItems.ApplyDelay | ui/include/classes/macros/CMacrosResolver.php:2779-2836 | the delay resolves to its macro value or stays as is. Every other macro is kept. The delay stays among the macros only when a step also uses it |
| MacroItems.ExtractItemTestMacros | ui/include/classes/macros/CMacrosResolver.php:2765-2842 | the result is the found macros of the step texts and the delay, with the delay handled as described |

## Left out

- Memory allocation is not modelled: `zbx_malloc`/`zbx_realloc` in `get_param_dyn` and the growing buffer of `replace_key_params_dyn`. The model's strings are unbounded, and only `get_param` keeps its caller-sized buffer.
- `zbx_user_macro_parse`, `zbx_token_parse_nested_macro` and the key-character test are function parameters; their C code is not part of this model.
- `zbx_snprintf` is not part of this model. KeyParams.Written assumes it behaves like C's `snprintf`: it writes at most `size - 1` characters and a NUL.
- `replace_key_params_dyn`'s callback is a function parameter. It returns a status and an optional replacement, so error strings it formats are not modelled.
- `encodeURIComponent`/`decodeURIComponent` are modelled from the ECMAScript definition. Lone UTF-16 surrogates, which make `encodeURIComponent` throw, cannot occur in Dafny's Unicode strings.
- The `trim()` of the raw body and the dialog handling around the two web-scenario conversions are not modelled.
- Database queries, API calls (`API::Map()`, `API::Trigger()`), `CWebUser`, `getImageByIdent` and the referencer are inputs or function parameters. So are the macro extractors (`extractMacros`, `getMacroPositions`) of the parent class; they are not part of this model.
- `UNRESOLVED_MACRO_STRING`, `TRIGGER_QUERY_PLACEHOLDER` and `HOST_INVENTORY_DISABLED` are defined outside the resolver. The sentinel is written as `*UNKNOWN*`, the placeholder is a parameter, and the inventory mode is a datatype value.
- `CArrayHelper::sort` of event tags is not modelled: the tags are taken already sorted.
- resolveMediaTypeUrls is modelled for one event; the outer loop over events repeats it independently.
- The trigger-URL prologue of resolveTriggerUrl is not modelled.
- Map-element macros other than the host-based ones and `resolveMapLabelMacros` are not modelled.
- The HTML expression builder is not modelled.
- HTML styling and link targets (`CSpan`, `CLink`, classes, URLs) are not modelled: an HTML fragment keeps only its text and kind.
- `resolveFunctionParameters` and `resolveItemKeys` are not modelled; they run before the function join.
- The `{HOST.HOSTn}` reference is an input; `CMacroParser` is not part of this model.
- MacroItems.SortByRank: PHP's `uasort` is stable since PHP 8. The model is a stable insertion sort, but stability is proved only for the case where no positions are known (SortWithoutOrder).
- The inventory table `InventoryMacros` is stated for each of its 81 entries, but lemmas look up only the entries near its head, such as the contact pair; a literal lookup deep in the table is too costly for the solver. The label and URL lists of supported macros built from its keys (ui/include/classes/macros/CMacrosResolver.php:1984-1985) are not modelled.
- ParamLists.GetParamArray: arrays with spaces around an element, bare elements holding `"`, `[` or `]` (which the scanner copies as data), and elements after a parameter that is not well formed on its own are not covered. Nested arrays are rejected by num_param (ParamLists.NumParamNested).
- ParamLists.GetParamQuoted: a quoted text ending in a backslash is not covered, because its closing quote would read as escaped.
- ParamLists.RemoveParamQuoted: a quoted string holding an unescaped `"`, or ending in a backslash, is not covered; remove_param then ends the quote at another place.
- KeyParams.TrailingRefused: stated for a list of one bare parameter. For every other list, KeyParams.StepRefuses and KeyParams.RefusedFails state the refusal at whatever configuration the walk reaches it; KeyParams.NestedRefused covers a nested `[` only at the start of the list.
- ParamLists.NumParamNested: the text before the array is plain (no quotes or brackets); NumParamJoin carries the result past any well-formed parameters before a `,`.
- ParamLists.NumParamStray: the text before the `]` is plain; NumParamJoin carries the result past any well-formed parameters before a `,`.
- ParamLists.NumParamUnterminated: the text before the quote is plain; NumParamJoin carries the result past any well-formed parameters before a `,`.
- ParamLists.NumParamUnclosed: the text before the array and inside it is plain; NumParamJoin carries the result past any well-formed parameters before a `,`.
- MapImporter.CheckCircularRecursive: map names are compared exactly. PHP's loose `in_array` and `array_search` (CMapImporter.php:125 and 128) also treat two numeric strings of equal value, such as "1" and "01", as the same name. The model therefore does not report a cycle that closes only through such a pair of names.
- MapImporter.CheckCircularAll: the corrected search compares map names exactly, as CheckCircularRecursive does, and has the same gap for numeric names.
- MapImporter.FirstElementOnly: the as-written cycle search is kept only for the counterexample. The import uses the corrected search, which checks every element.

## Findings

| source | as written | input that shows it | evidently intended | confidence | as-written member | corrected member |
|---|---|---|---|---|---|---|
| frontends/php/include/classes/import/importers/CMapImporter.php:139-143 | inside the loop over a referenced map's elements the recursive search returns at once, with the result for the first element whatever its type, so later elements of that map are never searched | map A has an image element then an element for B; map B has an image element then an element for A. The cycle A→B→A goes unreported | every element of a referenced map is searched, so every cycle of map references is reported | not executed | MapImporter.FirstElementOnly | MapImporter.CycleReported |
