# EuropaPHP core in Dafny

This project models three small pieces of the EuropaPHP framework and proves
properties of them.

- **`Europa\Filter\ClassNameFilter`** (module `Filter`) turns a value such as
  `index/user_admin` into a class name such as `\Index\User\Admin`. It adds
  the configured prefix and suffix and trims `\` from both ends. It then
  rewrites the directory separator, `/` and `_` to `\`, splits at `\`,
  upper-camel-cases each part and joins the parts behind a leading `\`.
- **`Europa\Controller\ControllerAbstract`** (module `Controller`) dispatches
  a request:
  - it picks the requested action method, or the default one, or fails with
    one of two `LogicException`s;
  - it parses the `@filter` tags of the chosen method into filter objects;
  - it runs the filters in order and then calls the action.
  `addFilter` appends to the controller's filter list.
- **`Europa\View\Helper\Json`** (module `ViewHelper`) renders view variables
  as JavaScript:
  - one `window[a][b] = {};` initialiser line per segment of a dotted
    namespace;
  - then one assignment line per variable.
  `makeJsonEncodable` turns nested arrays and objects into plain arrays.

Two support modules model the PHP runtime these rely on:

- `Php`: dynamic values, ordered arrays as lists of key/value entries,
  truthiness, `isset`, offset reads and writes, and `array_merge`.
- `PhpString`: `trim` with a character list, `explode` (also with a limit of
  two), `implode`, and `str_replace` with one-character search strings.

Calls into code that is not part of this model are parameters:

| PHP | Dafny |
|---|---|
| `UpperCamelCaseFilter::filter` | `ucc: string -> string` |
| `DIRECTORY_SEPARATOR` | `ds: char` |
| `json_encode` | `enc: Value -> string` |
| `PHP_EOL` | `eol: string` |
| `class_exists` | membership in `classes: set<string>` |
| `method_exists` | membership in the controller's `methods` |
| reading `@filter` tags through reflection | the controller's `filterTags` map |
| `call_user_func($filter, $action)` | `run`; `false` means the filter threw |
| `invokeArgs` | `call` |

A filter that throws stops the dispatch. The model returns that as
`Err(FilterRejected(f))` together with the trace of the filters that ran.

A null namespace for `Json` is the empty string. Both are falsy, so the
output is the same.

## Model

| member | source | states |
|---|---|---|
| Php.Truthy | src/Europa/Controller/ControllerAbstract.php:73-76 | PHP's conversion to boolean: null, `false`, `0`, `''`, `'0'` and the empty array are falsy |
| Php.Find | src/Europa/Controller/ControllerAbstract.php:70 | finds the first entry with the key, and finds none exactly when no entry has it |
| Php.Isset | src/Europa/Controller/ControllerAbstract.php:70 | `isset($params[$action])`: the key is present and its value is not null; used through `RequestedActionIsParam` |
| Php.Get | src/Europa/Controller/ControllerAbstract.php:70 | `$params[$action]`: the value under the key, or null when it is absent; its behaviour after a write is stated by `AssignShape` |
| Php.ToKey | src/Europa/Controller/ControllerAbstract.php:69-70 | the array offset a configured value denotes; used through `RequestedActionIsParam` |
| Php.Assign | lib/Europa/View/Helper/Json.php:92 | `$a[$k] = $v` on an ordered array; its meaning is stated by `AssignShape` and `AssignPositions` |
| Php.AssignShape | lib/Europa/View/Helper/Json.php:92 | reading the written key gives the written value, and every other key reads as before |
| Php.AssignPositions | lib/Europa/View/Helper/Json.php:92 | the array grows by one entry exactly when the key was absent, and every earlier entry keeps its key and position |
| Php.AssignKeepsUnique | lib/Europa/View/Helper/Json.php:92 | writing an offset keeps the keys unique, and adds the key at the end only when it was absent |
| Php.ArrayMerge | lib/Europa/Filter/ClassNameFilter.php:34 | every key of either array survives, custom values override, and the other defaults stay |
| PhpString.IndexOfShape | src/Europa/Controller/ControllerAbstract.php:116 | the position found holds the first occurrence, and it is the length exactly when there is none |
| PhpString.LeadingInShape | lib/Europa/Filter/ClassNameFilter.php:53 | the counted prefix is all trimmed characters, and the next character is not one |
| PhpString.TrailingInShape | lib/Europa/Filter/ClassNameFilter.php:53 | the counted suffix is all trimmed characters, and the character before it is not one |
| PhpString.Trim | lib/Europa/Filter/ClassNameFilter.php:53 | `trim` with a character list; its meaning is stated by `TrimShape` |
| PhpString.TrimShape | lib/Europa/Filter/ClassNameFilter.php:53 | `trim` leaves a contiguous slice; everything cut off is in the list; the slice neither starts nor ends with a listed character; it is empty exactly when every character is listed |
| PhpString.TrimPiece | lib/Europa/Filter/ClassNameFilter.php:53 | the piece between a leading and a trailing run of listed characters neither starts nor ends with one, and is empty exactly when the runs cover the string |
| PhpString.Implode | lib/Europa/Filter/ClassNameFilter.php:65 | `implode` on a one-character glue; its round trip with `explode` is stated by `Explode` and `ExplodeImplode` |
| PhpString.Explode | lib/Europa/Filter/ClassNameFilter.php:59 | one more piece than separators, no piece holds the separator, and joining the pieces gives back the string |
| PhpString.ExplodeImplode | lib/Europa/Filter/ClassNameFilter.php:59-65 | exploding pieces joined by a separator they do not contain gives back the pieces |
| PhpString.ExplodeWithoutSeparator | lib/Europa/Filter/ClassNameFilter.php:59 | a string without the separator explodes to itself alone |
| PhpString.ExplodeFirstPiece | lib/Europa/Filter/ClassNameFilter.php:59 | a separator-free first piece comes off whole |
| PhpString.ExplodeLimit2 | src/Europa/Controller/ControllerAbstract.php:116 | `explode(' ', $v, 2)`; its meaning is stated by `ExplodeLimit2Shape` and `ExplodeLimit2Agrees` |
| PhpString.ExplodeLimit2Shape | src/Europa/Controller/ControllerAbstract.php:116 | with a limit of two: one piece when there is no separator and two otherwise; the first piece has no separator; joining gives back the string |
| PhpString.ExplodeLimit2Agrees | src/Europa/Controller/ControllerAbstract.php:116 | splitting at the first separator gives the same first piece as a full explode, and the rest is the other pieces rejoined |
| PhpString.PieceInImplode | lib/Europa/Filter/ClassNameFilter.php:65 | every character of a piece occurs in the joined string |
| PhpString.ReplaceChar | lib/Europa/Filter/ClassNameFilter.php:56 | every occurrence of one character becomes the replacement, and nothing else changes |
| PhpString.StrReplace | lib/Europa/Filter/ClassNameFilter.php:56 | the passes, one per search character, together replace exactly the characters in the search list |
| Filter.MapParts | lib/Europa/Filter/ClassNameFilter.php:60-62 | the camel-case filter is applied to each part, one result per part, in order |
| Filter.ClassNameFilter.constructor | lib/Europa/Filter/ClassNameFilter.php:20-35 | the configuration is the defaults (empty prefix and suffix) merged with the custom array |
| Filter.ClassNameFilter.Filter | lib/Europa/Filter/ClassNameFilter.php:44-67 | the result is `\` followed by the camel-cased parts of the normalized `prefix . value . suffix`, joined by `\` |
| Filter.Trimmed | lib/Europa/Filter/ClassNameFilter.php:50-53 | the value between prefix and suffix with `\` trimmed from both ends; stated by `TrimmedShape` |
| Filter.Normalized | lib/Europa/Filter/ClassNameFilter.php:56 | the trimmed value with the separators rewritten to `\`; stated by `NormalizedShape` |
| Filter.Parts | lib/Europa/Filter/ClassNameFilter.php:59 | the normalized value split at `\`; stated by `PartsShape` |
| Filter.TrimmedShape | lib/Europa/Filter/ClassNameFilter.php:50-53 | after trimming there is no `\` at either end, and a first character other than `\` survives |
| Filter.NormalizedShape | lib/Europa/Filter/ClassNameFilter.php:56 | after normalising there is no `/`, `_` or directory separator; each became `\`; every other character is unchanged |
| Filter.PartsShape | lib/Europa/Filter/ClassNameFilter.php:59 | parts = number of `\` plus one, they rejoin to the normalized string, and no part holds a separator of any kind |
| Filter.ClassNameSplits | lib/Europa/Filter/ClassNameFilter.php:65 | when camel-casing never yields `\`, splitting the class name after the leading `\` gives back the camel-cased parts |
| Filter.LeadingSlashGivesEmptyPart | lib/Europa/Filter/ClassNameFilter.php:53-59 | only `\` is trimmed, so a value that starts with `/` gets an empty first part |
| Controller.RequestedAction | src/Europa/Controller/ControllerAbstract.php:69-70 | the parameter under the configured key, or null when it is not set; stated by `RequestedActionIsParam` |
| Controller.Names | src/Europa/Controller/ControllerAbstract.php:73-74 | a value names an action when it is truthy and `method_exists` finds it; used by `SelectAction` |
| Controller.SelectAction | src/Europa/Controller/ControllerAbstract.php:73-82 | succeeds exactly when the action or the default names a method; prefers the action; a falsy action gives "no action was found", otherwise "both ... do not exist" |
| Controller.ExistingActionWins | src/Europa/Controller/ControllerAbstract.php:73-82 | an existing action is chosen whatever the default is |
| Controller.RequestedActionIsParam | src/Europa/Controller/ControllerAbstract.php:69-70 | the requested action is the parameter under the configured key, or null |
| Controller.DefaultActionParam | src/Europa/Controller/ControllerAbstract.php:25-29 | by default the action is read from the `action` parameter |
| Controller.DefaultActionName | src/Europa/Controller/ControllerAbstract.php:25-29 | by default the default action is `action` |
| Controller.ParseTag | src/Europa/Controller/ControllerAbstract.php:116-118 | one tag value split into the class name and the constructor argument; stated by `ParseTagShape` |
| Controller.ParseTagShape | src/Europa/Controller/ControllerAbstract.php:116-118 | a tag splits at its first space into a trimmed class name and trimmed argument; with no space the argument is `''` |
| Controller.ParseAll | src/Europa/Controller/ControllerAbstract.php:115-118 | every tag value is parsed, one result per tag |
| Controller.FirstUnknown | src/Europa/Controller/ControllerAbstract.php:120-122 | the position of the first tag whose class does not exist; stated by `FirstUnknownShape` and `FirstUnknownAt` |
| Controller.FirstUnknownShape | src/Europa/Controller/ControllerAbstract.php:120-122 | every class before the position is known, and the class at it is not |
| Controller.FirstUnknownAt | src/Europa/Controller/ControllerAbstract.php:120-122 | the first unknown class is found right after a run of known ones |
| Controller.BuildFilters | src/Europa/Controller/ControllerAbstract.php:113-127 | the filter list for parsed tags, or the error for the first unknown class; one filter per tag when it succeeds; the rest is stated by `BuildFiltersShape` |
| Controller.BuildFiltersShape | src/Europa/Controller/ControllerAbstract.php:113-127 | one filter per tag in order exactly when every class is known; otherwise the error for the first unknown class |
| Controller.BuildFiltersAllKnown | src/Europa/Controller/ControllerAbstract.php:120-125 | when every class is known, the list is exactly one filter per tag, in tag order |
| Controller.FiltersFor | src/Europa/Controller/ControllerAbstract.php:111-128 | `getFiltersFor` on the raw tag values; stated by `FiltersForShape` |
| Controller.FiltersForShape | src/Europa/Controller/ControllerAbstract.php:113-127 | the same, stated over the raw tag values: success exactly when every class is known, and the error names the first unknown one |
| Controller.FirstRejected | src/Europa/Controller/ControllerAbstract.php:84-86 | the position of the first filter that throws, or the number of filters; stated by `FirstRejectedShape` and `FirstRejectedAt` |
| Controller.FirstRejectedShape | src/Europa/Controller/ControllerAbstract.php:84-86 | every filter before the position runs without throwing, and the one at it throws |
| Controller.FirstRejectedAt | src/Europa/Controller/ControllerAbstract.php:84-86 | the first filter that throws is found right after a run of filters that do not |
| Controller.RanAll | src/Europa/Controller/ControllerAbstract.php:84-86 | one run event per filter, in order |
| Controller.ControllerAbstract.constructor | src/Europa/Controller/ControllerAbstract.php:25-45 | the configuration is the defaults merged with the custom settings, and the filter list is empty |
| Controller.ControllerAbstract.AddFilter | src/Europa/Controller/ControllerAbstract.php:98-102 | appends exactly one filter at the end, keeps the earlier ones, and returns the controller itself |
| Controller.ControllerAbstract.GetFiltersFor | src/Europa/Controller/ControllerAbstract.php:111-128 | builds exactly the filters that the method's tag values ask for, or throws for the first unknown class (see `FiltersForShape`) |
| Controller.ControllerAbstract.BuildFrom | src/Europa/Controller/ControllerAbstract.php:113-127 | the loop builds exactly the filters `BuildFilters` describes, or stops at the first unknown class with its error |
| Controller.ControllerAbstract.RunFilters | src/Europa/Controller/ControllerAbstract.php:84-86 | runs the filters in order up to and including the first that throws, and reports how many passed |
| Controller.ControllerAbstract.Dispatch | src/Europa/Controller/ControllerAbstract.php:82-88 | an unknown filter stops before any filter runs; otherwise the filters run in order up to the first that throws, and the action is called with the params only when none throws |
| Controller.ControllerAbstract.Invoke | src/Europa/Controller/ControllerAbstract.php:67-89 | a selection error stops before anything runs; otherwise the chosen action is dispatched as `Dispatch` states |
| ViewHelper.AssignAll | lib/Europa/View/Helper/Json.php:90-93 | the array rebuilt with one `$arr[$i] = …` per entry, in order; stated by `AssignAllFrom` and `AssignAllDistinct` |
| ViewHelper.MakeJsonEncodable | lib/Europa/View/Helper/Json.php:87-98 | scalars come back unchanged, and arrays and objects become arrays |
| ViewHelper.Converted | lib/Europa/View/Helper/Json.php:91-93 | one converted entry per entry of the array or object |
| ViewHelper.ConvertedAt | lib/Europa/View/Helper/Json.php:91-93 | each converted entry keeps its key and holds the converted value |
| ViewHelper.AssignAllFrom | lib/Europa/View/Helper/Json.php:90-93 | the rebuilt array holds only assigned entries, and its keys stay unique |
| ViewHelper.AssignAllDistinct | lib/Europa/View/Helper/Json.php:90-93 | assigning entries with distinct keys into an empty array gives them back in order |
| ViewHelper.MakeJsonEncodableIsEncodable | lib/Europa/View/Helper/Json.php:87-98 | the result contains no object, at any depth, and its arrays have unique keys |
| ViewHelper.MakeJsonEncodableKeepsKeys | lib/Europa/View/Helper/Json.php:89-95 | an array or object becomes an array with the same keys in the same order, each value converted |
| ViewHelper.EncodableUnchanged | lib/Europa/View/Helper/Json.php:87-98 | a value that is already encodable comes back unchanged |
| ViewHelper.MakeJsonEncodableIdempotent | lib/Europa/View/Helper/Json.php:87-98 | converting twice is converting once |
| ViewHelper.ToJson | lib/Europa/View/Helper/Json.php:74-77 | `json_encode` of the value once it has been made encodable |
| ViewHelper.Segments | lib/Europa/View/Helper/Json.php:53-54 | the namespace segments: none for a falsy namespace, else the pieces between dots; stated by `LinesShape` and `FalsyNamespace` |
| ViewHelper.Prefix | lib/Europa/View/Helper/Json.php:51-55 | `window` followed by every segment in brackets; built by `Json.Initialisers` |
| ViewHelper.InitLines | lib/Europa/View/Helper/Json.php:54-57 | one initialiser line per segment; the count and the text of each are stated by `InitLinesAt` |
| ViewHelper.AssignLine | lib/Europa/View/Helper/Json.php:61 | the assignment line for one variable |
| ViewHelper.AssignLines | lib/Europa/View/Helper/Json.php:60-62 | one assignment line per variable; stated by `AssignLinesAt` |
| ViewHelper.Json.constructor | lib/Europa/View/Helper/Json.php:37-41 | stores the variables and the namespace |
| ViewHelper.Json.Initialisers | lib/Europa/View/Helper/Json.php:50-58 | the loop builds the prefix for the namespace and exactly its initialiser lines |
| ViewHelper.Json.Assignments | lib/Europa/View/Helper/Json.php:60-62 | the loop writes exactly one assignment line per variable, in order |
| ViewHelper.Json.ToString | lib/Europa/View/Helper/Json.php:48-65 | the output is the initialiser lines followed by the assignment lines |
| ViewHelper.ConcatAppend | lib/Europa/View/Helper/Json.php:50-64 | writing two lists of lines is writing the first and then the second |
| ViewHelper.ConcatSnoc | lib/Europa/View/Helper/Json.php:56-61 | appending one line to the output is concatenating one more line |
| ViewHelper.InitLinesStep | lib/Europa/View/Helper/Json.php:54-57 | one more pass of the namespace loop extends the path by one segment and adds its initialiser line |
| ViewHelper.AssignLinesStep | lib/Europa/View/Helper/Json.php:60-62 | one more pass of the variable loop adds that variable's assignment line |
| ViewHelper.InitLinesAt | lib/Europa/View/Helper/Json.php:54-57 | `k` segments give `k` initialiser lines, and the `i`-th initialises `window[s1]...[si]` |
| ViewHelper.AssignLinesAt | lib/Europa/View/Helper/Json.php:60-62 | one assignment line per variable, in iteration order, `prefix[json(name)] = json(value);` |
| ViewHelper.InitLinesEnd | lib/Europa/View/Helper/Json.php:56 | every initialiser line ends with the line terminator |
| ViewHelper.AssignLinesEnd | lib/Europa/View/Helper/Json.php:61 | every assignment line ends with the line terminator |
| ViewHelper.LinesShape | lib/Europa/View/Helper/Json.php:53-62 | the output has one line per segment plus one per variable; each ends with the line terminator; a truthy namespace with `d` dots has `d + 1` segments |
| ViewHelper.FalsyNamespace | lib/Europa/View/Helper/Json.php:51-53 | a falsy namespace (none, `""` or `"0"`) gives no initialiser lines and assigns into `window` |
| ViewHelper.TwoSegments | lib/Europa/View/Helper/Json.php:54 | the namespace `a.b` has the segments `a` and `b` |
| ViewHelper.TwoSegmentPath | lib/Europa/View/Helper/Json.php:55 | the paths for `a` and for `a.b` are `[a]` and `[a][b]` |
| ViewHelper.TwoSegmentLines | lib/Europa/View/Helper/Json.php:54-57 | the segments `a` and `b` give `window[a] = {};` and then `window[a][b] = {};` |
| ViewHelper.TwoSegmentNamespace | lib/Europa/View/Helper/Json.php:51-57 | segments go in unquoted: the namespace `a.b` gives the prefix `window[a][b]` and the lines `window[a] = {};` and `window[a][b] = {};` |

## Left out

- The bootstrapper (`app/boot/Bootstrapper.php`) is not part of this model. It only sets up error reporting, paths and autoloading.
- The request exception codes (`lib/Europa/Request/Exception.php`) are not part of this model. They are constants with no behaviour.
- The form input element (`europa/lib/Europa/Form/Element/Input.php`) is not part of this model. It delegates to a parent class that is not available.
- The `ControllerAbstract` constructor's filter and `init` calls (src/Europa/Controller/ControllerAbstract.php:47-57) are left out. They pass an undefined `$method` to every filter, so their behaviour is not well defined. `Controller.ControllerAbstract.constructor` sets up only the configuration and the empty filter list.
- `Config`'s dotted access (`$this->config->action->param`) is modelled as a flat map from setting names to values.
- `filters.enable` is stored but never read, as in the source.
- Exception messages are not modelled. The `sprintf` texts become error constructors that carry the data the messages mention.
- Controller.SelectAction: `method_exists` is modelled as case-sensitive membership of a string, and a non-string action never names a method. PHP matches method names case-insensitively.
- Controller.BuildFiltersShape: `class_exists` is case-sensitive membership, and autoloading is not modelled.
- Controller.ControllerAbstract.GetFiltersFor: all tag values are parsed first and then checked in order. The source parses each value inside the loop. Parsing has no effects, so the filters and the error are the same.
- `new $class($value)` is modelled as the pair of class name and argument. A constructor that throws is not modelled.
- `run` only says whether a filter threw. What a filter does to the controller or the request is not modelled.
- Php.ToKey: numeric strings such as `"5"` stay string keys. PHP would turn them into integer keys.
- Floats, resources and closures are not values of the model.
- ViewHelper.MakeJsonEncodable: a value is a finite tree, so the model always terminates. In PHP an object that points back to itself, or an array that holds a reference to itself, makes `makeJsonEncodable` (lib/Europa/View/Helper/Json.php:91-92) recurse without end. The model has no such values, so `MakeJsonEncodableIsEncodable` says nothing about them.
- Filter.ClassNameFilter.Filter: the value is a string. PHP's `filter($value)` takes any value and lets `.` convert it: ints, booleans, null and objects with `__toString`. Those conversions are not modelled.
- Filter.ClassNameFilter.constructor: the configuration maps names to strings. A custom `prefix` or `suffix` that is not a string, which `array $config` allows, is not modelled.
- ViewHelper.Json.constructor: the namespace is a string. PHP accepts any value for `$ns`, and the docblock even says `array`. Only strings are modelled, and null is the empty string.
- An object's entries are the entries `foreach` visits. `Traversable` iteration, and what it may do on the way, is not modelled.
- PhpString.StrReplace: only one-character search strings are modelled, which is what the class-name filter passes. Multi-character searches are not.
- PhpString.Trim: the `..` range syntax of `trim`'s character list is not modelled; neither caller uses it.
- The internals of `UpperCamelCaseFilter` and `json_encode` are not part of this model. They are the parameters `ucc` and `enc`, so nothing is proved about what they produce.
- `DIRECTORY_SEPARATOR` and `PHP_EOL` are the parameters `ds` and `eol`.
