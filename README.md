# json-template-files: a Dafny model of the resolution core

`JSONTemplateFiles` (index.js) builds an output tree from two globbed sets of
files. The *default* set supplies the base layout and the *package* set
overrides it. Every source path that matches `/templates/(.*)$` gets a
destination: the text after the marker, joined onto `outputPath`, with one
leading `_` removed from the leaf name. A leaf that begins with `_` is a
template and is rendered with `templateData`; any other file is copied. When a
default file and a package file land on the same destination, the package file
wins, and each destination appears once.

The model covers the parts of the class that decide *what* is written *where*:

| module | file | models |
|---|---|---|
| `JsValues` | js_values.dfy | JavaScript values and their truthiness (ECMAScript ToBoolean), for the constructor's checks |
| `Errors` | errors.dfy | the two errors the core raises: a missing option (constructor) and a path that `/templates/(.*)$` does not match (`getDestPath`) |
| `PosixPath` | posix_path.dfy | `path.basename`, `path.dirname`, `path.parse` and `path.join` with the POSIX separator, on normal paths |
| `Records` | records.dfy | the record `{ srcPath, destPath, dirname, isTemplate }` and `find` by destination |
| `Discovery` | discovery.dfy | the regular expression of `getDestPath`, `getDestPath` itself and `mapFilePaths` |
| `Merging` | merging.dfy | `mergeTemplates`: lodash `union`, the overriding `map`/`find`, and `uniqBy(…, "destPath")` |
| `Materialize` | materialize.dfy | the dispatch of `processTemplates`: render a template, copy anything else |
| `TemplateFiles` | template_files.dfy | the constructor, `findTemplates` and `process` |
| `Scenarios` | scenarios.dfy | worked examples: single paths, a shared destination, and a whole run |

The two glob results are arguments. The model does not run the globs, read or
write files, or render templates. `Process` returns the list of actions
`processTemplates` starts.

Behaviour of the code that the model keeps:
- `findTemplates` resolves the default files first and the package files
  second (index.js:30-31). So when both sets hold a path that does not
  match, the failure comes from the default set, and the package glob never
  runs. The `TypeError` itself names no path; the model's error records the
  path it came from.
- `copyFile` passes the whole record to `fs.copy` as its source, and it
  ensures the directory of the record's source file (`dirname`).
  `Materialize.Copy` records exactly these arguments.
- The merged order is deterministic: destinations appear in first-occurrence
  order, defaults before packages (`Merging.MergeOrder`).
- When `/templates/(.*)$` does not match a path, `matches` is `null` and reading
  `matches.length` throws a `TypeError`. The model names this failure
  `PathResolutionError(file)`, and the first such file in `files.map` order
  ends `mapFilePaths`.

## Model

| member | source | states |
|---|---|---|
| `TemplateFiles.New` | index.js:12-16 | succeeds exactly when all four options are truthy, and the instance then holds them unchanged. Otherwise it fails with a configuration error naming a falsy option, and every option checked before that one is truthy. The order is packageTemplatePath, defaultTemplatePath, templateData, outputPath |
| `JsValues.Truthy` | index.js:13-16 | JavaScript truthiness: `undefined`, `null`, `false`, NaN, 0 and "" are falsy. Every other string, number, array and object is truthy |
| `Errors.Error.Message` | index.js:13-16 | a configuration error carries `JSONTemplateFiles requires: ` followed by the option's name. The TypeError of a path that does not match has no message written in the core |
| `Errors.ConfigurationMessageNamesField` | index.js:13-16 | different missing options give different messages, so the message names the option |
| `TemplateFiles.FindTemplates` | index.js:29-35 | succeeds exactly when every default path and every package path matches `/templates/(.*)$`, and the merged records then have distinct destinations. On failure the error names the first unmatched default path, or, when all defaults match, the first unmatched package path |
| `TemplateFiles.FindTemplatesMerges` | index.js:29-35 | when both sets of paths decorate, the templates found are `mergeTemplates` of the decorated defaults and the decorated packages |
| `TemplateFiles.Process` | index.js:23-27 | a construction error is returned before any discovery. Once constructed, the run fails exactly when `findTemplates` fails, with its error, and otherwise its actions are the plan of the templates found with `templateData`, no two of them writing the same destination |
| `Materialize.ActionFor` | index.js:67-68 | one record's action keeps its destination. It is a render exactly when the record is a template, reading the record's source with `templateData`. Otherwise it is a copy of the record itself with the record's directory ensured |
| `Materialize.Plan` | index.js:65-70 | one action per record, in order, with the record's destination. A record is rendered exactly when it is a template: a render reads the record's source with `templateData`. Otherwise the record is copied with its own directory ensured and the record itself as copy source |
| `Discovery.MatchesAt` | index.js:73-74 | `/templates/` starts at the position with no line terminator after it. A match implies the marker, ending in its separator, fits in the path |
| `Discovery.Captured` | index.js:75 | `matches[1]`: the text after the marker, so that the path is its prefix through the marker followed by the captured text |
| `Discovery.FindMatch` | index.js:73-74 | a position it returns is a match of `/templates/(.*)$`: the marker starts there, at or after the starting point, and no line terminator follows it |
| `Discovery.FindMatchLeftmost` | index.js:73-74 | no match lies before the returned position, and `None` means the path has no match at all |
| `Discovery.FindMatchFrom` | index.js:73-74 | a match with none before it is the one the search returns |
| `Discovery.GetDestPath` | index.js:72-80 | fails exactly when the expression does not match the path, and the error names that path |
| `Discovery.DestPathSegments` | index.js:75-80 | the destination has the segments of `outputPath`, then the captured directory segments unchanged (even those beginning with `_`), then the leaf with one leading `_` removed. A leaf that strips to "" or "." resolves to the directory itself, and one that strips to ".." to its parent |
| `Discovery.DestPathText` | index.js:75-80 | as text: `outputPath`, '/', the captured directories with their separators, and the stripped leaf, whenever the stripped leaf is a proper name |
| `Discovery.TemplateFlagReadsStrippedLeaf` | index.js:60 | the basename that `isTemplate` tests is the last captured segment, the same leaf `getDestPath` strips |
| `Discovery.JoinLeafSegments` | index.js:79 | the segments of `path.join(dir, leaf)`: a proper leaf is appended, "" or "." leaves the directory's segments, and ".." drops the last captured directory |
| `Discovery.Decorate` | index.js:56-61 | the record of one source path: the path, its destination, `path.dirname` of the path, and whether its basename begins with `_`. `Discovery.MapFilePathsRecords` states it for every record |
| `Discovery.MapFilePaths` | index.js:54-63 | succeeds exactly when every path matches, with one record per path. Otherwise the error names the first path without a match |
| `Discovery.MapFilePathsRecords` | index.js:55-61 | record k of a successful run is path k with its `getDestPath` destination, its `path.dirname`, and the template flag of its basename |
| `PosixPath.DirnameBasename` | index.js:59-60 | the basename holds no separator. A path without a separator has directory "." and is its own basename. Otherwise, outside the root directories "/" and "//", the path is its directory, '/' and its basename |
| `PosixPath.JoinSplit` | index.js:76-79 | joining the segments of a path back with '/' gives the path |
| `PosixPath.SplitJoin` | index.js:76-79 | splitting segments without separators that were joined with '/' gives back those segments |
| `PosixPath.SplitAppend` | index.js:76 | the segments of `a + "/" + b` are those of `a` followed by those of `b` |
| `PosixPath.LastSep` | index.js:77 | the index of the separator after which no separator follows, or -1 when there is none |
| `PosixPath.Basename` | index.js:60 | `path.basename`: the text after the last separator, or the whole path when it has none. It carries no contract of its own; `PosixPath.DirnameBasename` states its properties |
| `PosixPath.Dirname` | index.js:59 | `path.dirname`: the text before the last separator, "/" or "//" for a root directory, "." without a separator. `PosixPath.DirnameBasename` states its properties |
| `PosixPath.Parse` | index.js:77 | `path.parse(filePath)` reduced to its `dir` and `base` fields, split at the last separator. `PosixPath.ParseAtLastSep` states its properties |
| `PosixPath.ParseAtLastSep` | index.js:77 | `base` is the basename. Without a separator `dir` is "" and `base` the whole path. With the separator first, `dir` is "/". Otherwise the path is `dir`, '/' and `base` |
| `PosixPath.Join` | index.js:76 | `path.join(outputPath, dir)` of a normal root and a normal relative path: the two joined by one separator. `PosixPath.SplitAppend` gives its segments |
| `PosixPath.Parent` | index.js:79 | `path.join(dir, "..")` of a normal root: the path without its last segment. `PosixPath.ParentDropsLastSegment` states its properties |
| `PosixPath.ParentDropsLastSegment` | index.js:79 | the segments of a path are those of its parent followed by its basename. The parent of a top-level entry is "/", and that of a single relative segment is "." |
| `PosixPath.JoinLeaf` | index.js:79 | `path.join(dir, leaf)` for a leaf without separators: "" and "." leave the directory, ".." climbs to the parent, and any other name is joined on. `Discovery.JoinLeafSegments` gives its segments |
| `PosixPath.StripUnderscore` | index.js:78 | the name changes exactly when it begins with `_`, and then only that first `_` goes |
| `Records.FirstWithDest` | index.js:47 | `None` exactly when no record has the destination. Otherwise the result is a record of the list with that destination |
| `Records.FirstWithDestIsFirst` | index.js:47 | the record found is the one at the first index with that destination |
| `Merging.Dedup` | index.js:45 | the result holds exactly the unseen values of the input, each once |
| `Merging.Union` | index.js:45 | a record is in the union exactly when it is in either list |
| `Merging.PreferPackage` | index.js:46-48 | the record keeps its destination. It is replaced by the first package record with that destination, or kept when no package record has it |
| `Merging.Override` | index.js:45-49 | the `map` step replaces the record at each index by `PreferPackage` of that record: same length, every destination in place, and only package records introduced |
| `Merging.OverrideLookup` | index.js:45-49 | after the `map` step a destination the packages have resolves to the first package record with it, and any other destination to the first record of the union with it |
| `Merging.UniqByDest` | index.js:44-51 | `uniqBy(…, "destPath")`: destinations are distinct, they are the input's in first-occurrence order, and every kept record comes from the input |
| `Merging.UniqByDestFrom` | index.js:44-51 | destinations are distinct, and every kept record comes from the input with a destination not already seen |
| `Merging.UniqByDestOrder` | index.js:44-51 | the kept destinations are the input's, in first-occurrence order |
| `Merging.UniqByDestLookup` | index.js:44-51 | the record kept for a destination is the first input record with it |
| `Merging.UnionByValueIsConcat` | index.js:45 | deduplicating the union by value gives the same merge as plain concatenation, which is what identity-based `union` does with fresh records |
| `Merging.MergeTemplates` | index.js:43-52 | the merged records have distinct destinations, and each comes from the defaults or the packages |
| `Merging.MergeLookup` | index.js:43-52 | precedence: a destination the packages have resolves to the first package record with it, and any other destination to the first default record with it |
| `Merging.MergeOrder` | index.js:43-52 | the merged destinations are those of the defaults followed by the packages, each at its first occurrence |
| `Merging.MergeDestinations` | index.js:43-52 | a destination is in the merge exactly when it is in the defaults or the packages |
| `Merging.MergeMembers` | index.js:43-52 | a record is in the merge exactly when it is the winner for its destination |
| `Merging.MergeFromInputs` | index.js:43-52 | every merged record is a package record, or a default record whose destination no package has |
| `Merging.MergeWithoutPackages` | index.js:43-52 | with no package records the merge is `uniqBy` of the defaults |
| `Merging.MergeWithoutDefaults` | index.js:43-52 | with no default records the merge is `uniqBy` of the packages |
| `Merging.MergeRestrictedToPackages` | index.js:43-52 | restricted to destinations the packages have, the merge holds exactly the packages' own `uniqBy` |
| `Merging.MergeIdempotent` | index.js:43-52 | merging the result with the same package records again changes nothing |
| `Scenarios.ConfigTemplateIsStripped` | index.js:72-80 | `/x/templates/sub/_config.json` with root `/out` goes to `/out/sub/config.json` as a template |
| `Scenarios.PlainFileKeepsItsName` | index.js:72-80 | `/x/templates/readme.md` goes to `/out/readme.md` and is not a template |
| `Scenarios.OneUnderscoreIsStripped` | index.js:78 | `/x/templates/__init` goes to `/out/_init`: only one `_` is removed |
| `Scenarios.MarkerNeedsTrailingSeparator` | index.js:73-75 | `/x/templates` has no match, so it gets no destination |
| `Scenarios.LineBreakAfterMarkerIsRejected` | index.js:73-75 | a line break after the marker defeats `(.*)$`, so the path gets no destination |
| `Scenarios.PackageReplacesSharedDestination` | index.js:43-52 | merging defaults `[a, b]` with packages `[p]`, where `p` shares `a`'s destination, gives `[p, b]` |
| `Scenarios.PackageTemplateOverridesDefault` | index.js:23-80 | a whole run: the default set is `_a.txt` and `b.txt` and the package set is its own `_a.txt`. The package template is rendered to `/out/a.txt` and the default `b.txt` is copied to `/out/b.txt` |

## Left out

- The glob (`findTemplatesFromPath`, index.js:37-41): its results are the `defaultFiles` and `packageFiles` arguments. So glob failures and `nodir` filtering are not modelled.
- Rendering and file I/O (`processTemplate` and `copyFile`, index.js:82-92): the model stops at the action each record starts. It does not model reading, `json-templates` rendering, `fs.outputFile`, `fs.ensureDir` or `fs.copy`, nor their failures.
- Promises and concurrency: `Promise.map` runs the actions concurrently. The model gives them as a list in record order, and `Process` proves that no two of them write the same destination.
- `path.join` normalisation: `outputPath` must be a normal root (`PosixPath.NormalRoot`): a relative path or one with a single leading '/', whose segments are all proper names. So an `outputPath` of `.` or `/`, or one with an empty, `.` or `..` segment or a trailing separator, is excluded. The text after the marker must be a normal relative path (`Discovery.WellFormedSource`), with no empty, `.` or `..` segment and no trailing separator. The normalisation that a stripped leaf can trigger ("", `.`, `..`) is modelled.
- `path.sep` on Windows: only the POSIX separator '/' is modelled.
- `TemplateFiles.New`: a missing or `null` options object, whose destructuring throws a `TypeError` before any check, is not modelled. `Config` always holds the four option values.
- `TemplateFiles.ValidOutput`: an `outputPath` that is truthy but not a string, or not a normal path, is outside the model. `Process` requires it only when construction succeeds, so construction errors are covered for every input.
- `JsValues.Truthy`: BigInt and Symbol values are not modelled, and an object is always truthy.
- `Merging.Union`: lodash `union` compares records by identity. The model compares by value and proves the merge equals the concatenating version (`Merging.UnionByValueIsConcat`).
- `Discovery.MapFilePaths`: its own contract states success, length and the first error. The content of each record is stated by `Discovery.MapFilePathsRecords`.
