# basic-utils in Dafny

A model of the core of `index.js`, a flat JavaScript library of small utilities, with proofs about that model. The modelled utilities are:

- `isEmpty`, `isPlainObject` and `compactArray` over a datatype of JavaScript values;
- the string utilities `capitalize`, `toCamelCase`, `toPascalCase`, `isPalindrome`, `escapeHtml` and `unescapeHtml`;
- `groupBy`, a loop that folds an array into a dictionary of buckets;
- `deepMerge`, which merges sources into a target object in place;
- `clamp` over integers;
- `throttle`, a closure whose one piece of state is `lastTime`.

Files:

- `js_value.dfy` (module `JsValue`) holds the value datatype and the coercions the utilities depend on:
  - truthiness;
  - `value == null`;
  - the `Object.prototype.toString` tag;
  - `String(v)`;
  - property reads `item[key]`, which throw `TypeError` on `null` and `undefined`;
  - the names every object literal inherits from `Object.prototype`.
- `ascii.dfy` and `seqs.dfy` hold character classes, ASCII case mapping, `filter`, reversal and subsequences.
- `strings.dfy` and `html.dfy` hold the string utilities, as recursive functions over `seq<char>`.
- `collections.dfy` holds `compactArray` and `groupBy`:
  - `GroupBy` is a method with a loop, proved against the function `Groups`;
  - the errors it can raise are modelled with `Result`.
- `deep_merge.dfy` holds `deepMerge`:
  - `ObjectRef` is a class whose `fields` map the methods update in place;
  - `DeepMerge` consumes the sources one by one, as `shift` does;
  - `MergeSource` is the `for…in` loop over one source;
  - both methods are proved against the functions `MergeValue` and `MergeAll`.
- `throttle.dfy` holds `throttle` as a class with a `lastTime` field:
  - the clock reading is an argument of each call;
  - the calls that fire are recorded in `executed`.
- `numbers.dfy` holds `clamp`.

The code was followed where it differs from its own documentation. For example, a bucket name that names a member of `Object.prototype` makes `groupBy` throw, and `deepMerge` leaves a missing key with such a name out of the target when the source value at that key is a plain object. The model keeps those behaviours and proves them.

## Model

| member | source | states |
|---|---|---|
| JsValue.Truthy | index.js:102 | undefined, null, NaN, 0, false and "" are falsy: a number is truthy exactly when non-zero, a boolean is its own value, and a string is truthy exactly when non-empty; every array and object is truthy, even an empty one |
| JsValue.IsNullish | index.js:5 | only undefined and null are `== null`, and both are falsy |
| JsValue.NullishIffEmptyFalsy | index.js:4-10 | undefined and null are the only values that are empty, falsy and not strings |
| JsValue.IsEmpty | index.js:4-10 | null and undefined are empty; a string is empty exactly when it is falsy; an array exactly when it has no elements; a plain object, and any other non-function object such as a Date or a Map, exactly when it has no own enumerable keys; booleans, numbers and functions never are; every empty value that is not nullish or a string is truthy |
| JsValue.IsEmptyExamples | tests/test.js:27-32 | "", [] and {} are empty, "test" is not |
| JsValue.IsPlainObject | index.js:88-90 | exactly the values tagged "Object" are plain: every object literal is plain, while arrays, null, undefined, booleans, numbers, NaN, strings and other objects (functions, Date, Map, ...) are not; a plain object is truthy |
| JsValue.IsPlainObjectExamples | tests/test.js:82-85 | {} is plain, [] is not |
| JsValue.Get | index.js:217 | reading `item[key]` throws exactly for null and undefined items; an object's own property is read, a missing one gives undefined |
| JsValue.GetArrayIndex | index.js:217 | an array element is read back through the decimal name of its index |
| JsValue.ToJsString | index.js:217 | the property key of a string value is the string itself |
| Strings.Capitalize | index.js:45-48 | non-strings and "" give ""; otherwise the first character is upper-cased and the rest kept, with the length unchanged |
| Strings.CapitalizeIdempotent | index.js:45-48 | capitalizing twice is capitalizing once |
| Strings.CapitalizeExamples | tests/test.js:51-54 | "hello" and "Hello" both give "Hello" |
| Strings.ReplaceDelimiters | index.js:137 | the first replacement never lengthens the string |
| Strings.ReplaceAfterPrefix | index.js:137 | after a delimiter-free prefix, a `-` or `_` followed by a character other than a line terminator is dropped, that character is upper-cased, and the rest is replaced in turn |
| Strings.ReplaceKeepsDelimiter | index.js:137 | a delimiter at the end or before a line terminator is copied unchanged, and the rest is replaced in turn |
| Strings.ReplaceTwoDelimiters | index.js:137 | in "foo-bar_baz"-shaped text both delimiters are replaced |
| Strings.ReplaceOneDelimiter | index.js:137 | a `-` or `_` between two delimiter-free words is dropped and the next character upper-cased |
| Strings.MapFirstWordChar | index.js:138 | the second replacement changes at most the first character, and only when it is a word character |
| Strings.ToCamelCase | index.js:135-139 | as long as the first replacement's result; the first character is never upper-case |
| Strings.ToPascalCase | index.js:144-148 | agrees with toCamelCase at every position but the first, where it is never lower-case |
| Strings.ReplaceDelimitersFree | index.js:137 | a string without delimiters passes the first replacement unchanged |
| Strings.ReplaceDelimitersClean | index.js:137 | when every delimiter is followed by a character that is neither a delimiter nor a line terminator, no delimiter survives |
| Strings.CamelCaseOfDelimiterFree | index.js:135-139 | without delimiters toCamelCase only lower-cases a leading word character |
| Strings.PascalCaseIsCapitalize | index.js:144-148 | without delimiters toPascalCase is capitalize |
| Strings.CamelCaseIdempotent | index.js:135-139 | on cleanly delimited strings toCamelCase is idempotent |
| Strings.PascalCaseIdempotent | index.js:144-148 | on cleanly delimited strings toPascalCase is idempotent |
| Strings.CasesOfReplaced | index.js:135-148 | after the first replacement the two conversions differ only in the case given to the first character |
| Strings.HelloWorldReplaced | index.js:137 | "hello-world" becomes "helloWorld" in the first replacement |
| Strings.HelloWorldCamel | tests/test.js:99-101 | toCamelCase("hello-world") is "helloWorld" |
| Strings.HelloWorldPascal | tests/test.js:103-105 | toPascalCase("hello-world") is "HelloWorld" |
| Ascii.Upper | index.js:47 | an ASCII lower-case letter becomes upper-case and any other character is kept; the result is never lower-case |
| Ascii.Lower | index.js:138 | an ASCII upper-case letter becomes lower-case and any other character is kept; the result is never upper-case |
| Ascii.LowerAll | index.js:233 | `toLowerCase` keeps the length and lower-cases each character in place |
| Seqs.Filter | index.js:129 | `filter` keeps only passing elements, each taken from the input, and never lengthens |
| Seqs.FilterIsSubsequence | index.js:129 | `filter` keeps input order |
| Seqs.FilterCounts | index.js:129 | `filter` keeps every passing element as often as it occurs and drops every failing one |
| Seqs.Reverse | index.js:234 | split, reverse and join keep the length |
| Seqs.ReverseAt | index.js:234 | position i of the reverse holds position n-1-i |
| Strings.StripNonAlnum | index.js:233 | only ASCII letters and digits remain after removing `[\W_]` |
| Strings.Normalized | index.js:233 | the compared string holds only letters and digits, none upper-case |
| Strings.IsPalindrome | index.js:232-235 | true exactly when the normalized string reads the same from both ends |
| Strings.NormalizedReverse | index.js:233 | normalizing commutes with reversing |
| Strings.IsPalindromeReverse | index.js:232-235 | a string and its reverse get the same answer |
| Strings.IsPalindromeWithoutAlnum | index.js:232-235 | a string with no letters or digits is a palindrome |
| Strings.NormalizedOfLowerAlnum | index.js:233 | text of lower-case letters and digits is its own normalization |
| Strings.MirroredIsPalindrome | index.js:232-235 | mirrored lower-case alphanumeric text is a palindrome |
| Strings.RacecarIsPalindrome | tests/test.js:151 | "racecar" is a palindrome |
| Strings.HelloIsNotPalindrome | tests/test.js:152 | "hello" is not |
| Html.EscapeChar | index.js:174-182 | a character is replaced exactly when it is one of the five; a replacement has no markup and starts with its entity |
| Html.EscapeHtml | index.js:173-184 | the output contains no < > " or ', every & in it begins one of the five entities, and it is never shorter |
| Html.UnescapeHtml | index.js:189-201 | the output is never longer than the input |
| Html.UnescapeApos39 | index.js:195-199 | "&#39;" is decoded to an apostrophe wherever it starts, whatever follows |
| Html.UnescapeOtherAmpersand | index.js:197-200 | an & that starts none of the five entities is copied, and the scan resumes at the next character |
| Html.UnescapeNbsp | index.js:197-200 | an entity outside the five, such as "&nbsp;", is left unchanged |
| Html.UnescapeWithoutAmpersand | index.js:197-200 | text without & is unchanged |
| Html.UnescapeAfterEscapeChar | index.js:173-201 | unescaping an escaped character gives the character back, except that an apostrophe stays "&#039;" |
| Html.UnescapeEscape | index.js:173-201 | unescapeHtml(escapeHtml(s)) is s with every apostrophe spelled "&#039;" |
| Html.RoundTripIff | index.js:173-201 | unescapeHtml(escapeHtml(s)) == s exactly when s has no apostrophe |
| Html.ApostropheEntities | index.js:180-195 | "&#039;" is left as it is, and "&#39;" becomes an apostrophe |
| Html.EscapeAppend | index.js:173-184 | escaping distributes over concatenation |
| Html.EscapePlain | index.js:173-184 | text without the five characters is unchanged |
| Html.EscapeTag | index.js:173-184 | `<p>` becomes `&lt;p&gt;` for a tag name that escaping leaves alone |
| Html.EscapeTagExample | tests/test.js:117-119 | "<div>Test</div>" escapes to "&lt;div&gt;Test&lt;/div&gt;" |
| Html.UnescapeTagExample | tests/test.js:121-123 | and that unescapes back to "<div>Test</div>" |
| Collections.CompactArray | index.js:128-130 | every kept element is truthy; the result is a subsequence of the input; every truthy value is kept as often as it occurs |
| Collections.CompactArrayIdempotent | index.js:128-130 | compacting twice is compacting once |
| Collections.CompactArrayEmptyIff | index.js:128-130 | the result is empty exactly when every element is falsy |
| Collections.CompactArrayExample | tests/test.js:95-97 | [0, 1, false, 2, "", 3] compacts to [1, 2, 3] |
| Collections.GroupName | index.js:217 | the bucket name is an error exactly for a null or undefined item; for an object that has the key it is String of its property, and for an object without it the bucket is "undefined" |
| Collections.MissingKeyGroupsUnderUndefined | index.js:217 | an object without the grouping key is put in the "undefined" bucket |
| Collections.Bucket | index.js:217-218 | every item in a bucket has that bucket's name and comes from the input |
| Collections.Groups | index.js:215-220 | the intended grouping: every item that has a name has a bucket under that name, and every bucket holds only input items of its own name |
| Collections.GroupBy | index.js:215-220 | succeeds exactly when no item is nullish and no bucket name is inherited from Object.prototype, and then returns Groups |
| Collections.GroupsSnoc | index.js:217-218 | one more item goes to the end of its own bucket, created if missing; no other bucket changes |
| Collections.GroupableSnoc | index.js:216-219 | the fold runs to the end over one item more exactly when it did before and the new item has a safe name |
| Collections.GroupsBucketsAreNamed | index.js:217-218 | every bucket is non-empty and holds only items of its own name |
| Collections.GroupsHoldEveryItem | index.js:217-218 | every item is in the bucket of its name |
| Collections.GroupsKeepOrder | index.js:216-219 | items keep their input order within a bucket |
| Collections.GroupSizesSum | index.js:216-219 | with no nullish items, the bucket lengths sum to the number of items |
| Collections.InheritedNameThrows | index.js:217 | an item whose name is "constructor" makes groupBy throw, although the grouping has a "constructor" bucket |
| Collections.GroupsExample | tests/test.js:129-141 | the three records are grouped into A = [first, third] and B = [second] |
| DeepMerge.KeyResult | index.js:99-106 | a source value that is not a plain object is assigned, except to a missing `__proto__`; a plain-object source value leaves a truthy `target[key]` that is not a plain object alone |
| DeepMerge.MergeOver | index.js:98-107 | every target key survives, and a key the loop has not reached keeps its value |
| DeepMerge.MergeValue | index.js:95-111 | if the target or the source is not a plain object, the target comes back unchanged; a plain target stays plain |
| DeepMerge.MergeAll | index.js:95-111 | with no sources the target is returned unchanged; a non-plain target is never changed; a plain target stays plain |
| DeepMerge.ObjectRef.MergeSource | index.js:98-107 | looping over the source keys in any order updates the fields to the single-source merge |
| DeepMerge.ObjectRef.DeepMerge | index.js:95-111 | consuming the sources with shift leaves the fields equal to the merge of all sources in order |
| DeepMerge.ObjectRef.constructor | index.js:95 | a target object with the given own properties |
| DeepMerge.MergeOverStep | index.js:98-107 | handling one more key is applying that key's entry to the properties so far |
| DeepMerge.MergeValueAt | index.js:98-107 | keys outside the source keep their value; a written key holds what its entry computed |
| DeepMerge.NonPlainSourceOverwrites | index.js:104-106 | a source value that is not a plain object overwrites `target[key]` |
| DeepMerge.PlainSourceMergesRecursively | index.js:100-103 | a plain source value is merged into a plain `target[key]`, and into a fresh {} when `target[key]` is falsy |
| DeepMerge.TruthyNonPlainTargetKept | index.js:101-102 | a truthy non-plain `target[key]` such as 5 is kept when the source value is a plain object |
| DeepMerge.InheritedKeyNotMerged | index.js:101-102 | a plain source value under a missing inherited name is not written to the target |
| DeepMerge.InheritedKeyExample | index.js:101-102 | deepMerge({}, { toString: { a: 1 } }) leaves the target empty |
| DeepMerge.LaterSourcesWin | index.js:96-110 | merging one more source merges it into the result of the others |
| DeepMerge.LastSourceValueWins | index.js:104-110 | a non-object value in the last source is the final value of its key |
| DeepMerge.MergeIntoEmptyCopies | index.js:95-111 | merging a plain object without inherited key names into {} copies it |
| DeepMerge.MergeIdempotent | index.js:95-111 | merging the same source twice is merging it once |
| DeepMerge.TwoSourcesExample | tests/test.js:87-89 | deepMerge({}, {a: 1}, {b: 2}) is {a: 1, b: 2} |
| DeepMerge.TwoSourcesOnObject | tests/test.js:87-89 | the same merge, run on an object, leaves it holding {a: 1, b: 2} |
| Numbers.Clamp | index.js:225-227 | with lo <= hi the result is in [lo, hi] and equals value when value is in range; below lo gives lo; above hi gives hi; hi < lo gives lo |
| Numbers.ClampNearest | index.js:225-227 | with lo <= hi no point of [lo, hi] is nearer to value than the result |
| Numbers.ClampIdempotent | index.js:225-227 | clamping twice is clamping once |
| Numbers.ClampMonotonic | index.js:225-227 | clamping preserves order |
| Numbers.ClampExamples | tests/test.js:144-148 | 5, -5 and 15 clamp to 5, 1 and 10 in [1, 10] |
| Throttling.Throttle.constructor | index.js:74-75 | `lastTime` starts at 0 and nothing has run |
| Throttling.Throttle.Call | index.js:76-82 | a call fires exactly when now - lastTime >= wait; a firing call sets lastTime to now and records its arguments; a dropped call changes nothing |
| Throttling.Fires | index.js:78 | a call sooner than `wait` after the last run never runs the function; with a non-negative wait, a call that runs is not earlier than the last run |
| Throttling.Step | index.js:78-79 | `lastTime` becomes `now` exactly when the call runs and stays otherwise; with a non-negative wait it never decreases |
| Throttling.LastAfter | index.js:76-82 | after a sequence of calls `lastTime` is the initial value or one of the call times, and with a non-negative wait it never decreases |
| Throttling.Replay | index.js:76-82 | calling the throttle object at `times` runs the function exactly at Fired's times and leaves lastTime at LastAfter's value; the runs are at least `wait` apart |
| Throttling.Fired | index.js:76-82 | over a sequence of calls at most as many runs as calls, each at one of the call times |
| Throttling.FiredSpaced | index.js:78-80 | consecutive runs are at least `wait` apart, and the first is at least `wait` after the initial lastTime |
| Throttling.LastAfterIsLastRun | index.js:78-80 | the kept lastTime is the time of the last run, or the initial value when nothing ran |
| Throttling.QuietWindowDrops | index.js:78 | calls less than `wait` after lastTime are all dropped |
| Throttling.TwoQuickCalls | tests/test.js:71-80 | two calls less than `wait` apart run the function once |

## Left out

- `isJson` and `deepClone` (index.js:15-29) are wrappers over `JSON.parse` and `JSON.stringify`, which are foreign calls.
- `randomString` (index.js:34-40) depends on `Math.random`.
- `formatDate` and `dateDifferenceInDays` (index.js:53-58, 207-210) depend on `Date` parsing and the local time zone.
- `bytesToHumanReadable` (index.js:153-161) is floating-point arithmetic.
- `debounce` and `sleep` (index.js:63-69, 166-168) are timer scheduling.
- `objectToQueryString` (index.js:116-123) is mainly `encodeURIComponent`, the percent-encoding of section 2.1 of RFC 3986 over UTF-8.
- Ascii.Upper: only ASCII letters change case; `toUpperCase` also maps other Unicode letters, some of them to several characters.
- Ascii.Lower: only ASCII letters change case; `toLowerCase` also maps other Unicode letters.
- Ascii.LowerAll: built on Ascii.Lower, which is exact for isPalindrome because only ASCII letters and digits survive the strip.
- Strings.ToCamelCase: takes a string; a non-string argument makes `str.replace` throw TypeError, and that error path is not modelled.
- Strings.ToPascalCase: takes a string; a non-string argument makes `str.replace` throw TypeError, and that error path is not modelled.
- Html.EscapeHtml: takes a string; a non-string argument makes `str.replace` throw TypeError, and that error path is not modelled.
- Html.UnescapeHtml: takes a string; a non-string argument makes `html.replace` throw TypeError, and that error path is not modelled.
- Strings.IsPalindrome: takes a string; the `String(value)` coercion of other values is not modelled.
- Numbers.Clamp: integers only; NaN, infinities and fractions are not modelled.
- JsValue.Value: numbers are integers plus a NaN tag, and the text `String(v)` gives for a non-plain object is a field of the value.
- JsValue.ToJsString: `String(n)` is taken as all the digits of n. This matches JavaScript only for magnitudes below 10^21; from 10^21 on, JavaScript prints exponent form (`String(1e21)` is "1e+21"). Integers beyond 2^53 are not even held exactly in JavaScript. So `groupBy([{ g: 1e21 }], "g")` uses the bucket "1e+21" in JavaScript and "1000000000000000000000" in the model.
- JsValue.Value: `Obj` stands only for objects that inherit from Object.prototype and have no `toString` or `valueOf` of their own. Class instances, whose prototypes add members, are not modelled. Neither is `Object.create(null)`, which inherits nothing. Nor is an object with its own `toString`, whose `String(v)` is not "[object Object]".
- JsValue.Get: strings are sequences of code points, so a string's `length` counts code points where JavaScript counts UTF-16 code units.
- JsValue.Get: reads only own enumerable properties of an item; a missing key that an item inherits (for example `toString`) reads as undefined. So do non-enumerable own properties, such as a function's `name` and `length` or a RegExp's `lastIndex`.
- Collections.GroupBy: no claim is made about the order of keys in the result.
- Collections.GroupBy: takes a sequence; a non-array argument such as `null` or a string makes `array.reduce` throw TypeError, and that error path is not modelled.
- Collections.CompactArray: takes a sequence; a non-array argument such as `null` or a string makes `arr.filter` throw TypeError, and that error path is not modelled.
- DeepMerge.ObjectRef.MergeSource: nested objects are values, so aliasing between nested objects is not captured. When a nested target is shared, the source mutates every holder; the model updates only this target.
- DeepMerge.ObjectRef.MergeSource: `for…in` also visits inherited enumerable keys of the source; the model visits own keys only.
- DeepMerge.KeyResult: a plain source value under a missing `__proto__` key, as in a source from `JSON.parse('{"__proto__": {"polluted": 1}}')`, is merged into Object.prototype itself. The target's own properties stay unchanged, and so do the model's. But the names every object inherits change, the target's included. Later `!target[key]` reads, `for…in` loops and groupBy's bucket lookups then behave differently from the model's fixed InheritedNames, which the model does not track.
- DeepMerge.KeyResult: a missing key is judged by InheritedNames, which is right only for targets whose prototype is Object.prototype. A class instance with a method `greet` keeps `greet` in JavaScript; the model writes `greet`. `Object.create(null)` receives `toString` in JavaScript; the model writes nothing.
- DeepMerge.KeyResult: a non-plain value under a missing `__proto__` key replaces the target's prototype in JavaScript, which changes the names the target inherits for later keys. The model neither records nor tracks this change.
- DeepMerge.ObjectRef.DeepMerge: the returned reference is not modelled; the method updates the object in place.
- Throttling.Throttle.Call: `Date.now()` is the argument `now`. The wrapped call `func.apply(this, args)` is recorded as an entry of `executed`.
- Throttling.Throttle.constructor: the default `wait` of 300 is not modelled; the caller passes `wait`.

## Findings

| source | as written | input that shows it | evidently intended | confidence | as-written member | corrected member |
|---|---|---|---|---|---|---|
| index.js:217 | `result[item[key]] \|\| []` reads members inherited from Object.prototype, so a bucket name such as "constructor", "toString" or "__proto__" finds a truthy non-array and `push` throws TypeError | groupBy([{ group: "constructor", value: 1 }], "group") | { constructor: [{ group: "constructor", value: 1 }] } | not executed | Collections.InheritedNameThrows | Collections.Groups |
