# git-log-as-object, modelled in Dafny

The library runs `git log` with a format string it builds itself and turns
the output into commit objects. This project models the parts that do not
run git:

- **The record format** (`CommitBuilder`, `commit_builder.dfy`).
  - One table gives, for each of the 18 commit attributes, the git placeholder
    tokens to ask for and the builder that turns the returned fields into a
    value.
  - The key list is the nine default keys, then the requested optional keys,
    without repeats.
  - The format string puts an ASCII unit separator (0x1F) before every token
    and an ASCII record separator (0x1E) at the end.
  - The parser splits git's output on the record separator and drops what
    follows the last one. It then walks the same key list over each record,
    and each key consumes as many fields as it has tokens.
  - The builders are modelled too:
    - person pairs;
    - epoch seconds to milliseconds;
    - the parent list;
    - the tag/ref split of the `%D` decoration;
    - the lazy `Name <email>` match of the signer.
- **The name-status diff reader** (`Diff`, `diff.dfy`). It turns the output of
  `git diff-tree --name-status` into four path sets: added, deleted, modified
  and touched.
- **Request preparation and `gitLogSync`** (`GitLog`, `git_log.dfy`).
  - The requested key names become a set, and `"diff"` is taken out of it as a
    flag.
  - The range expression `start..end` defaults its end to `HEAD`.
  - The synchronous loop attaches a diff to every parsed commit in order.
  - Running git is a pair of function parameters. Each gives back git's
    output, or the exit status of a failed run, which the library reports
    as a process failure:
    - `fetchLog(range, format)`;
    - `fetchDiff(hash)`.
- **The legacy reader** (`LegacyLog`, `legacy_log.dfy`). It has a newline-separated
  metadata format and `createCommitObject`, which reads fields by line position
  and trims the line ending off the body.

Supporting modules:

- `Text` models the JavaScript string operations the parsers use: `indexOf`,
  `split`, `join`, `startsWith` and `parseInt`.
- `OrderedSets` models JavaScript's insertion-ordered `Set`.
- `Results` walks a list with a step that may throw.
- `Wrappers` holds `Option` and `Result`.
- `Errors` holds the error cases.

## Model

| member | source | states |
|---|---|---|
| `CommitBuilder.AttrNamed` | src/CommitBuilder.ts:71-90 | a requested name finds the attribute with exactly that name; it finds none only when no attribute has that name |
| `CommitBuilder.NameRoundTrip` | src/CommitBuilder.ts:71-90 | every attribute is found under its own name, so no two table entries share a name |
| `CommitBuilder.Sources` | src/CommitBuilder.ts:71-90 | every table entry asks for as many tokens as its builder takes arguments (two for a person, one otherwise) |
| `CommitBuilder.BuildDate` | src/CommitBuilder.ts:5 | a date is valid exactly when the field starts with a decimal digit; it is then a non-negative whole number of seconds in milliseconds |
| `CommitBuilder.BuildDateOfDecimal` | src/CommitBuilder.ts:5 | the decimal seconds of any Unix time are read back as that time × 1000 |
| `CommitBuilder.BuildParents` | src/CommitBuilder.ts:6 | the parents joined with spaces give back the field, no parent contains a space, and an empty field (a root commit) gives `[""]` |
| `CommitBuilder.BuildPerson` | src/CommitBuilder.ts:4 | a person holds the name field as its name and the email field as its email |
| `CommitBuilder.DecorationPartition` | src/CommitBuilder.ts:7-11 | tags and refs partition the decoration entries: tags are the entries prefixed `tag: `, prefix removed, and refs are the others |
| `CommitBuilder.DecorationAppend` | src/CommitBuilder.ts:7-11 | filtering two runs of entries in a row gives the tags (and the refs) of the first run followed by those of the second |
| `CommitBuilder.DecorationEntry` | src/CommitBuilder.ts:7-11 | one entry with the `tag: ` prefix is one tag and no ref, and putting the prefix back gives the entry; any other entry is one ref and no tag |
| `CommitBuilder.TagOrder` | src/CommitBuilder.ts:7-9 | the `k`-th tag, with `tag: ` put back, is the entry at the `k`-th of the increasing positions of the tag entries |
| `CommitBuilder.RefOrder` | src/CommitBuilder.ts:10-11 | the `k`-th ref is the entry at the `k`-th of the increasing positions of the entries without the prefix |
| `CommitBuilder.BuildTags` | src/CommitBuilder.ts:7-9 | `t` is a tag exactly when `tag: t` is one of the `", "`-separated entries; the tags follow the tag entries in order, one per entry, repeats kept |
| `CommitBuilder.BuildRefs` | src/CommitBuilder.ts:10-11 | refs are exactly the entries without the `tag: ` prefix, in order, one per entry, repeats kept; tags plus refs count every entry once |
| `CommitBuilder.BuildSigner` | src/CommitBuilder.ts:12-15 | a signer is found exactly when some `name <email>` prefix matches with no line break inside; the name is the shortest that matches, the email the shortest after it, and the field starts `name <email>` |
| `CommitBuilder.SignerFromFound` | src/CommitBuilder.ts:12-15 | when the lazy search from name length `n` finds a signer, no shorter name of at least `n` characters starts a match, and no shorter email closes that name |
| `CommitBuilder.SignerFromNone` | src/CommitBuilder.ts:12-15 | the lazy search from name length `n` finds nothing only when no name of at least `n` characters starts a match |
| `CommitBuilder.KeyListShape` | src/CommitBuilder.ts:92-108 | the key list is the nine defaults in order, then the new requested keys in request order; it has no duplicates and holds exactly the defaults and the requested keys |
| `CommitBuilder.FlatTokens` | src/CommitBuilder.ts:118-125 | the key list asks for one token per field the keys consume |
| `CommitBuilder.FlatTokensAppend` | src/CommitBuilder.ts:118-125 | the tokens of two key lists in a row are the tokens of the first followed by those of the second |
| `CommitBuilder.PlaceholderTokens` | src/CommitBuilder.ts:118-125 | the nested generator loop yields every token of every key, key by key |
| `CommitBuilder.TokensAlign` | src/CommitBuilder.ts:118-139 | the fields the parser hands to key `j` are at the positions of the tokens key `j` asked for |
| `CommitBuilder.ConsumeSucceeds` | src/CommitBuilder.ts:130-139 | the key walk succeeds exactly when the record has at least as many fields as the keys have tokens, and fails only with a short record |
| `CommitBuilder.ConsumeAssigns` | src/CommitBuilder.ts:130-139 | with distinct keys the walk assigns every key from its own fields and leaves every other entry alone |
| `CommitBuilder.Decode` | src/CommitBuilder.ts:127-141 | a record's attributes are exactly the keys, each built from its own fields |
| `CommitBuilder.Build` | src/CommitBuilder.ts:134-138 | a key without a builder keeps its one field as text; a person key pairs its name and email fields; the kind of value (text, person, date, name list, signer) is fixed by the key's builder |
| `CommitBuilder.DecodeAt` | src/CommitBuilder.ts:130-139 | a key without a builder keeps its one field, a person key pairs the name and email fields, a time key reads its seconds, and each key reads at its own offset |
| `CommitBuilder.ParseRecordDecodes` | src/CommitBuilder.ts:127-141 | a record is read exactly when it has enough fields (after dropping the text before the first unit separator), into the decoded attributes with no diff |
| `CommitBuilder.FieldsOfRecordText` | src/CommitBuilder.ts:129 | the fields of a printed record are the printed values, whatever precedes the first unit separator |
| `CommitBuilder.ParseRecordsEach` | src/CommitBuilder.ts:113-116 | records that each parse give their commits in the same order |
| `CommitBuilder.ParseLogRoundTrip` | src/CommitBuilder.ts:113-116 | output of K records, each ended by a record separator, parses into exactly K commits, the i-th from the i-th record; text after the last separator is never read |
| `CommitBuilder.FormatStringSelfParse` | src/CommitBuilder.ts:107-116 | the format string is itself read as exactly one record whose fields are the tokens |
| `CommitBuilder.PlaceholdersAlign` | src/CommitBuilder.ts:118-139 | reading the tokens back builds every key from its own tokens: the format and the parser walk the same table |
| `CommitBuilder.CommitBuilder.constructor` | src/CommitBuilder.ts:107-111 | the builder's key list is the deduplicated defaults-then-requested list, and its format string is built from that list's tokens |
| `CommitBuilder.CommitBuilder.BuildCommit` | src/CommitBuilder.ts:127-141 | the loop that shifts fields off the record gives the record's parse |
| `CommitBuilder.CommitBuilder.BuildAll` | src/CommitBuilder.ts:113-116 | the map over the records gives the log's parse, stopping at the first record that fails |
| `Text.ParseInt` | src/CommitBuilder.ts:5 | `parseInt(s, 10)` is a number exactly when `s` starts with a digit, and that number is not negative |
| `Text.ParseIntDecimal` | lib/index.ts:130 | `parseInt` reads back the decimal digits of any natural number |
| `Text.SplitTerminated` | src/CommitBuilder.ts:114 | splitting terminated parts followed by a tail gives the parts, then the pieces of the tail |
| `OrderedSets.FromSeq` | src/index.ts:72 | building a set by inserting elements in turn keeps each element's first occurrence, in order |
| `OrderedSets.DedupAppend` | src/CommitBuilder.ts:108 | a set built from `a` then `b` is `a`'s elements, then the elements of `b` that `a` lacks, in first-mention order |
| `OrderedSets.Delete` | src/index.ts:73 | `delete` removes the element, keeps the order of the rest, and answers whether it was there |
| `Results.MapAllFailure` | src/index.ts:62-65 | a walk fails exactly when some element's step fails, and then with the failure of the first such element |
| `Results.MapAllSuccess` | src/index.ts:62-65 | a walk that succeeds gives one result per element, each that element's own |
| `Diff.Parse` | src/Diff.ts:12-38 | the loop that adds to four sets gives the sets of the lines before the last newline |
| `Diff.DiffOfMembers` | src/Diff.ts:22-34 | touched holds exactly the paths on the lines; added, deleted and modified hold exactly the paths on lines whose status is `A`, `D` and `M` |
| `Diff.TouchedCoversAll` | src/Diff.ts:22-23 | every added, deleted or modified path is also touched |
| `Diff.SameLinesSameDiff` | src/Diff.ts:13-35 | line order and repetition do not change the result |
| `Diff.NoNewlineNoFiles` | src/Diff.ts:13 | output without a newline, such as the empty output of a commit that changes nothing, gives four empty sets |
| `Diff.LinesRoundTrip` | src/Diff.ts:13 | newline-terminated lines are read back exactly, and whatever follows the last newline is dropped |
| `Diff.ColumnsOfLine` | src/Diff.ts:22 | a line `status<TAB>path` with no other tab gives that status and that path |
| `Diff.ModifiedAndRenamed` | src/Diff.ts:12-38 | a modified file is modified and touched; the old path of a rename is only touched |
| `GitLog.RangeString` | src/index.ts:79-84 | the range ends with the end ref (`HEAD` when none is given); with a start ref it is the start ref, `..` and the end ref, otherwise the end ref alone; lib/index.ts:76-81 is the same function |
| `GitLog.RangeRoundTrip` | src/index.ts:79-84 | the range expression reads back as the start ref and the end ref, with the end `HEAD` when none is given; lib/index.ts:76-81 is the same function |
| `GitLog.ResolveName` | src/CommitBuilder.ts:119-121 | a requested name resolves to the attribute of that name; a name outside the table fails with that name |
| `GitLog.Prepare` | src/index.ts:71-77 | `includeDiff` holds exactly when `"diff"` was requested, and the builder gets the defaults plus the other requested names; the first unknown name fails |
| `GitLog.OptionalNamesFacts` | src/index.ts:72-73 | the names handed to the builder are the requested names other than `"diff"`, each once |
| `GitLog.ResolvedMembers` | src/index.ts:72-74 | the resolved attributes are exactly those whose names were requested |
| `GitLog.PreparedKeys` | src/index.ts:72-74 | the prepared key list has no duplicates and holds exactly the defaults and the requested attributes, never a diff |
| `GitLog.NoRequestDefaults` | src/index.ts:72 | with no key list the builder asks for the default keys alone |
| `GitLog.AttachDiffs` | src/index.ts:61-66 | the loop gives each commit, in order, the diff read for its hash; it stops at the first diff fetch that fails, leaving the commits before it updated and the rest unchanged |
| `GitLog.DiffWalkSucceeds` | src/index.ts:61-66 | a diff loop that completes keeps every commit's attributes and gives it the diff read for its own hash |
| `GitLog.DiffWalkFails` | src/index.ts:61-66 | when some diff fetch fails the loop fails, with a process failure carrying the exit status of the first commit whose fetch fails |
| `GitLog.GitLogSync` | src/index.ts:51-69 | `gitLogSync` returns what the request, the fetched log and the fetched diffs determine |
| `GitLog.LogSyncDiffs` | src/index.ts:61-66 | with `"diff"` requested, the log keeps its length and order; each commit keeps its attributes and gains the diff of its hash |
| `GitLog.LogSyncWithoutDiffs` | src/index.ts:61-68 | without `"diff"` the parsed log is returned unchanged |
| `GitLog.LogSyncDiffFailure` | src/index.ts:62-65 | a failing diff fetch fails the call with a process failure carrying the exit status of the first commit whose fetch fails |
| `GitLog.LogSyncKeyFailure` | src/index.ts:57 | a requested name outside the attribute table fails the call, whatever git would give back, naming a requested name other than `"diff"` |
| `GitLog.LogSyncLogFailure` | src/index.ts:58 | a failing `git log` fails the call with a process failure carrying git's exit status |
| `GitLog.LogSyncParseFailure` | src/index.ts:59 | output that does not parse fails the call with the parse error |
| `GitLog.LogSyncSucceeds` | src/index.ts:51-69 | the call succeeds when the keys resolve, `git log` succeeds, its output parses and, with `"diff"` requested, every commit's diff fetch succeeds |
| `LegacyLog.TrimEol` | lib/index.ts:120 | the body is a prefix of the raw body, `|EOL|` characters shorter, or empty when the raw body is shorter than that |
| `LegacyLog.CreateCommitObject` | lib/index.ts:118-138 | the metadata is read exactly when it has at least nine lines |
| `LegacyLog.MetadataFormatShape` | lib/index.ts:97 | the metadata format is nine placeholders, each followed by `%n` |
| `LegacyLog.MetadataTokensAreDefaults` | lib/index.ts:97 | the nine placeholders are the tokens the current table gives the first seven default keys |
| `LegacyLog.CreateCommitRoundTrip` | lib/index.ts:118-138 | from nine newline-ended lines and a body ended by the line ending, each line lands in its field by position and the body comes back without the line ending |
| `LegacyLog.CreateCommitTimes` | lib/index.ts:130-135 | time lines holding decimal Unix seconds are read as those times in milliseconds |

## Left out

- Running git is not part of this model: `src/process.ts`, `src/Log.ts`, `Diff.make`/`makeSync`/`args` and lib's process wrappers. In `GitLog` the git runs are the parameters `fetchLog` and `fetchDiff`. A failed run gives back its exit status (`None` for a signal), and the library turns it into a process failure. The error message git printed is not modelled.
- The asynchronous `gitLog` and its `Promise.all` fan-out (src/index.ts:19-37) and lib's `gitLog`, `gitLogSync`, `getRevisionCount`, `getCommit` and `getCommitSync`: concurrency and process I/O. The synchronous loop carries the ordering property.
- The working-directory argument `dir` and its `process.cwd()` default: they only reach git.
- `CommitBuilder.CommitBuilder.BuildCommit`: a record with fewer fields than its keys' tokens is a `ShortRecord` failure. The source instead gives `undefined` to plain keys and throws a `TypeError` in builders that split or match `undefined`.
- `GitLog.Prepare`: an unknown key name is an `UnknownAttribute` failure naming the first unknown requested name. The source throws a `TypeError` from `placeholderTokens` inside the builder's constructor.
- `Diff.Parse`: a line without a tab is skipped. The source adds `undefined` to `touched` (and to a status set when the status matches). A rename or copy line keeps its first path, as the source does.
- `CommitBuilder.BuildDate`: times are unbounded integer milliseconds, and `None` stands for an invalid `Date`. The range limit of JavaScript's `Date` and the 53-bit precision of its numbers are not modelled.
- `Text.ParseInt`: reads leading decimal digits only. The leading whitespace and sign that `parseInt` also accepts are not modelled; git prints Unix times as plain digits.
- `CommitBuilder.BuildSigner`: the regular expression is modelled as the lazy search it performs, with `.` not matching `\n`, `\r`, U+2028 and U+2029. No regular-expression engine is modelled.
- `GitLog.AttachDiffs`: commits are values. The loop replaces array cells in place of `Object.assign` on shared commit objects, so aliasing of commit objects is not captured.
- `LegacyLog.CreateCommitObject`: metadata with fewer than nine lines is a `ShortRecord` failure. The source reads `undefined` fields and an invalid `Date`.
- `os.EOL` is the parameter `eol` of `LegacyLog.CreateCommitObject`.
- Strings are sequences of characters. JavaScript's UTF-16 code units and git's output encoding are not modelled.
- The meaning of git's placeholders and the contents of git's output are opaque strings.
