# A verified model of a gulp blog build

The repository is a gulp build script for a static blog. Posts are markdown
files named with an ordering prefix (`003-my-first-post.md`) and carry a front
matter header (`title`, `excerpt`, `date`, `published`). Most of the script wires
library plugins together. This project models the hand-written logic between
those calls:

- **The index task** (`build:index`). A through-stream keeps every published,
  buffered post. It writes each kept post's slug and formatted date into the
  post's front matter and appends that front matter to `listOfPosts`. It also
  remembers the post as `indexFile`. On flush it reverses the list in place,
  renders it into `indexFile`, and pushes that file, which is then renamed
  `index.html`. `IndexTask.IndexAccumulator` is a class whose fields are the
  closure's shared variables. Its `Transform` and `Flush` methods are proved
  against the specification functions `KeptEntries`, `LastKept` and
  `ArrivalLog`. `BuildIndex` runs a whole pass.
- **Slugs and renames.** A slug is the file name without its ordering prefix,
  cut at the first `.md`. Post pages are renamed without their ordering prefix,
  and the index page becomes `index.html` (module `Slugs`). This rests on models
  of JavaScript's `indexOf`, `split` and `join` (module `JsStrings`).
- **The two publication filters.** The index drops a post when
  `published == false` holds. The posts task skips a post when
  `published && published == false` holds. Both use JavaScript loose equality
  (module `JsValues`: truthiness, and the Abstract Equality Comparison against
  `false` of ECMA-262, section 7.2.15, with StringToNumber from section 7.1.4.1).
- **The posts task** (`build:posts`). This is a stateless per-file transform
  followed by the prefix-stripping rename (module `PostsTask`).
- **The watcher.** A changed path picks one of three actions: rebuild the
  pages, rebuild the styles, or notify live-reload (module `Watcher`).
- **The error handlers** in `gulp_modules/error.js`. A handler decides between
  logging only and logging then exiting with status 1, by comparing severity
  positions (module `ErrorShim`).

Libraries are parameters of the model. Template rendering (`renderIndex`,
`renderPost`) and date formatting (`formatDate`) are uninterpreted functions.
Front matter arrives already parsed as a map from keys to scalar values. The
markdown body arrives already converted to bytes. A stream stage's effects are
recorded as a sequence of `Event`s: a file pushed downstream, or an error event
carrying a plugin name and a message.

Where the code departs from its evident intent, the model follows the code:

- The evident intent is an empty index when nothing is published. The code's
  flush assigns to `indexFile.contents` while `indexFile` is undefined, which
  throws a TypeError. `Flush` returns `Threw(TypeError)` and pushes nothing,
  and `BuildIndex` ends in `Crashed`.
- The evident intent is that only the boolean `false` excludes a post, and
  that an excluded post gets neither an index entry nor a page. The code
  compares loosely. The index therefore also drops `0`, `""`, `"0"` and other
  strings that convert to zero. The posts task's extra truthiness test means
  `published: false` still gets its own page (`PostsTask.FiltersDisagreeOnFalse`).
- Each rendered page is evidently meant to have its own output path. The
  posts rename keeps only what follows the first `-`, so `001-a.md` and
  `002-a.md` are both written to `a.html` (`Slugs.PagesCollide`). Every name
  without a hyphen becomes `.html` (`Slugs.HyphenFreePagesCollide`).
- Nothing states the slug of a post name without a hyphen; the code gives the
  empty slug (`Slugs.SlugWithoutHyphen`).

## Model

| member | source | states |
|---|---|---|
| JsValues.Get | gulpfile.js:169 | Reading a missing front matter key yields undefined; a present key yields its value. |
| JsValues.Truthy | gulpfile.js:230 | Defines ToBoolean for the `&&` of the posts filter: undefined, null, `false`, 0 and "" are falsy. Characterised with loose equality by `TruthyAndLooselyFalse`. |
| JsValues.StringToNumberIsZero | gulpfile.js:169 | Defines when StringToNumber of a string is zero: after trimming, it is empty or a decimal or radix literal of value zero. `BlankStringExample`, `SignedZeroStringExample`, `RadixZeroStringExample`, `NonZeroFractionExample` and `BareRadixPrefixExample` exercise it. |
| JsValues.LooselyEqualsFalse | gulpfile.js:169 | Defines `v == false` (also at line 230) per the Abstract Equality Comparison. `LooselyEqualsFalseCases` characterises it. |
| JsValues.LooselyEqualsFalseCases | gulpfile.js:169 | A value is loosely equal to `false` exactly when it is `false`, the number 0, or a string whose StringToNumber is zero; undefined and null never are. |
| JsValues.KeptValuesExamples | gulpfile.js:169 | A missing flag, null, `true`, 1 and the string "false" are not loosely equal to `false`, so the index keeps such posts. |
| JsValues.DroppedValuesExamples | gulpfile.js:169 | `false`, 0, "" and "0" are loosely equal to `false`, so the index drops such posts. |
| JsValues.BlankStringExample | gulpfile.js:169 | A blank string is trimmed to empty, converts to 0 and is loosely equal to `false`. |
| JsValues.SignedZeroStringExample | gulpfile.js:169 | A signed decimal zero with a fraction and an exponent ("-0.0e3") is loosely equal to `false`. |
| JsValues.ZeroWithExponent | gulpfile.js:169 | "0.0e3" is an unsigned decimal literal whose value is zero. |
| JsValues.ZeroFraction | gulpfile.js:169 | "0.0" is a decimal mantissa whose value is zero. |
| JsValues.RadixZeroStringExample | gulpfile.js:169 | A hexadecimal zero ("0x00") is loosely equal to `false`. |
| JsValues.NonZeroFractionExample | gulpfile.js:169 | "0.1" converts to a non-zero number and is not loosely equal to `false`. |
| JsValues.BareRadixPrefixExample | gulpfile.js:169 | "0x" converts to NaN and is not loosely equal to `false`. |
| JsValues.TruthyAndLooselyFalse | gulpfile.js:230 | A value is both truthy and loosely equal to `false` exactly when it is a non-empty string that converts to zero. |
| JsStrings.IndexOf | gulpfile.js:291-295 | The result is -1 or an index where the needle occurs, and no occurrence lies before it; -1 means there is no occurrence at all. |
| JsStrings.IndexOfStep | gulpfile.js:291-295 | Searching a non-empty string finds the needle at position 0, or one position past where searching the rest finds it, or nowhere when the rest has none. |
| JsStrings.IndexOfZeroIffPrefix | gulpfile.js:291-295 | `indexOf(t) === 0` holds exactly when `t` is a prefix of the string. |
| JsStrings.Split | gulpfile.js:174-177 | Splitting on a non-empty separator gives at least one piece. The first piece is the text before the first separator. No piece contains the separator. Joining the pieces with the separator gives back the input. |
| JsStrings.Join | gulpfile.js:176 | Defines `parts.join(sep)`. `Split` proves that joining the pieces of a split gives back the input, and `JoinTailOfSplit` gives the join after `shift()`. |
| JsStrings.JoinTailOfSplit | gulpfile.js:174-176 | Dropping the first piece and rejoining gives the text after the first separator, or "" when there is none. |
| JsStrings.SeqIndexOf | gulp_modules/error.js:14 | Array `indexOf` gives the first index holding the value, or -1 exactly when the value is absent. |
| Files.Published | gulpfile.js:169 | Defines the read of `file.frontMatter.published`, undefined when the key is missing (line 230 reads it too). `Get` characterises it. |
| Files.RenamePushed | gulpfile.js:199-202 | Defines a rename stage (here and at lines 258-262): every pushed file gets the callback's path, and error events stand. `BuildIndex`, `PagesRenamed` and `FiltersDisagreeOnFalse` use it. |
| Files.FullBaseName | gulpfile.js:174 | Defines `path.basename(file.path)` as the base name followed by the extension; its contract states that its length is the sum of theirs. |
| Common.Reversed | gulpfile.js:191 | Reversal keeps the length. |
| Common.ReversedAt | gulpfile.js:191 | Position k of the reversed list holds position n-1-k of the original. |
| Slugs.DropOrderingPrefix | gulpfile.js:174-176 | Stripping the ordering prefix shortens the name, or leaves nothing. |
| Slugs.DropOrderingPrefixAfterFirstHyphen | gulpfile.js:174-176 | The stripped name is the text after the first occurrence of `-`, or "" when the name has none. |
| Slugs.DropOrderingPrefixIsSplitJoin | gulpfile.js:174-176 | Split on `-`, shift, join with `-` gives exactly the stripped name. |
| Slugs.CutAtMarkdownExt | gulpfile.js:177 | The cut is never longer than its input. |
| Slugs.CutAtFirstMarkdownExt | gulpfile.js:177 | The cut ends where the first occurrence of `.md` starts, and keeps the whole input when there is none. |
| Slugs.Slug | gulpfile.js:174-177 | Defines the slug as the cut at `.md` of the name without its ordering prefix. `SlugIsSplitFirstPiece` ties it to the literal split/shift/join/split, and `SlugCutsAtFirstMarkdownExt` gives it for `<prefix>-<stem>.md<tail>`. |
| Slugs.SlugIsSplitFirstPiece | gulpfile.js:174-178 | The slug is the first piece of splitting the stripped name on `.md`, so it never contains `.md` and it starts the stripped name. |
| Slugs.RenamePost | gulpfile.js:258-262 | The post rename keeps the directory and the extension, and shortens the base name, or empties it when there is no hyphen. |
| Slugs.RenameIndex | gulpfile.js:199-202 | Whatever file is pushed, it is written as `index.html` in the same directory. |
| Slugs.FirstHyphen | gulpfile.js:174-176 | In `<prefix>-<rest>` with a hyphen-free prefix, the first hyphen is the one after the prefix. |
| Slugs.FirstMarkdownExt | gulpfile.js:177 | In `<stem>.md<tail>` with no `.md` in the stem, the first `.md` is the one after the stem; it cannot straddle the stem's end. |
| Slugs.SlugWithoutHyphen | gulpfile.js:174-177 | A base name with no hyphen has the empty slug. |
| Slugs.SlugCutsAtFirstMarkdownExt | gulpfile.js:174-177 | With `<prefix>` free of `-` and `<stem>` free of `.md`, the slug of `<prefix>-<stem>.md<tail>` is `<stem>`: the prefix and its hyphen go, later hyphens stay, and everything from the first `.md` on goes. |
| Slugs.SlugOfPostName | gulpfile.js:174-177 | With `<prefix>` free of `-` and `<stem>` free of `.md`, the slug of `<prefix>-<stem>.md` is `<stem>`. |
| Slugs.PagesCollide | gulpfile.js:258-262 | The posts `001-a` and `002-a` are both written to the page `a`: the rename does not keep page names distinct. |
| Slugs.HyphenFreePagesCollide | gulpfile.js:258-262 | Every page whose base name has no `-` is renamed to the empty base name in its directory, so all such pages land on one file. |
| Slugs.RenamePostOfPrefixed | gulpfile.js:258-262 | The page for `<prefix>-<rest>` is renamed `<rest>`, keeping every later hyphen. |
| Slugs.SlugMatchesPostPage | gulpfile.js:174-178 | For a post `<b>.md` whose base name `b` holds no `.md`, the slug in the index equals the base name the posts task gives the post's page. |
| Slugs.SlugAndPageDifferWhenNameHoldsMd | gulpfile.js:174-177 | Without that condition the two differ: `001-notes.mdx-draft.md` has slug `notes`, while its page is named `notes.mdx-draft`. |
| Slugs.FirstPostSlugExample | gulpfile.js:174-178 | `003-my-first-post.md` has slug `my-first-post`. |
| Slugs.FirstPostRenameExample | gulpfile.js:258-262 | The page `003-my-first-post.html` is renamed `my-first-post.html`. |
| Slugs.EarlyMarkdownExtExample | gulpfile.js:177 | `001-notes.mdx-draft.md` has slug `notes`, because the cut is at the first `.md`. |
| IndexTask.DroppedByIndex | gulpfile.js:169 | Defines the index filter `published == false`. `SkippedByPostsIsDroppedByIndex` and `FiltersDisagreeOnFalse` relate it to the posts filter. |
| IndexTask.Kept | gulpfile.js:158-173 | Defines the files the transform records: buffered and not dropped. `DroppedFileLeavesNoTrace` and `Snoc` state what keeping does to the shared state. |
| IndexTask.Augment | gulpfile.js:173-181 | Augmenting a kept file changes only its front matter: the path and the contents stay. |
| IndexTask.AugmentWritesSlugAndDate | gulpfile.js:173-179 | A kept file gains exactly the keys `slug` and `date`. The slug is derived from its base name. The date is the formatted old date. Every other key is unchanged. |
| IndexTask.ArrivalEvents | gulpfile.js:158-171 | On arrival a file yields at most one event, and a buffered file yields none. |
| IndexTask.ArrivalLog | gulpfile.js:157-183 | Before the flush the transform hands on at most one event per file. |
| IndexTask.KeptEntries | gulpfile.js:155-181 | The collected list never has more entries than files received. |
| IndexTask.LastKept | gulpfile.js:154-180 | `indexFile` is unset exactly when no received file was kept. |
| IndexTask.Snoc | gulpfile.js:157-183 | One more file appends its augmented front matter to the list and becomes `indexFile` if kept; otherwise both are unchanged. The log grows by the file's arrival events. |
| IndexTask.IndexPage | gulpfile.js:184-194 | The index page exists exactly when a file was kept. It is the last kept file carrying the render of the reversed list. |
| IndexTask.IndexAccumulator.constructor | gulpfile.js:152-155 | A fresh stream has no `indexFile`, an empty list and no output, and satisfies the collecting invariant. |
| IndexTask.IndexAccumulator.Transform | gulpfile.js:157-183 | Adds the file to those received and keeps the invariant tying `listOfPosts`, `indexFile` and the output to them. With `Snoc`, a kept file is appended and becomes `indexFile`, and any other file leaves both unchanged. The output grows by the file's pass-through or error event. |
| IndexTask.IndexAccumulator.Flush | gulpfile.js:184-196 | Reverses the list in place. With no `indexFile` it throws a TypeError and pushes nothing. Otherwise it pushes `indexFile` carrying the render of the reversed list. |
| IndexTask.TransformAll | gulpfile.js:157-183 | Feeding the files one by one to the transform leaves the accumulator collecting, having received exactly those files in order. |
| IndexTask.BuildIndex | gulpfile.js:146-202 | A whole pass crashes exactly when no file is kept. Otherwise it hands on the pass-through and error events, then exactly one page: the index page, renamed `index.html`. |
| IndexTask.KeptFiles | gulpfile.js:169-181 | Every file in the kept subsequence is buffered and not dropped. |
| IndexTask.EntriesFollowArrival | gulpfile.js:181 | Entry k of the list is the augmented front matter of the k-th kept file in arrival order. |
| IndexTask.IndexListNewestFirst | gulpfile.js:181-191 | After the flush, position k of the rendered list is the entry of the k-th kept file counted from the last. |
| IndexTask.DroppedFileLeavesNoTrace | gulpfile.js:169-171 | A file that is not kept, wherever it arrives, changes neither `listOfPosts` nor `indexFile`. |
| IndexTask.IndexFileHoldsLastEntry | gulpfile.js:180-181 | The file the index is rendered into carries the same front matter as the last list entry. |
| IndexTask.IndexFileIsLastKept | gulpfile.js:180 | The file the index is rendered into is the augmented last kept file. |
| IndexTask.OnlyEmptyEntriesPassThrough | gulpfile.js:158-171 | Every file pushed before the flush is an empty entry, so the index page is the only rendered file of a run. |
| IndexTask.AllKeptKeepsEach | gulpfile.js:169-181 | When every file is kept, the kept subsequence is the whole sequence, position by position. |
| IndexTask.AllKeptAllCounted | gulpfile.js:169-181 | When every file is kept, the list has one entry per file. |
| IndexTask.AllKeptListedInOrder | gulpfile.js:169-181 | When every file is kept, entry k of the list is the augmented front matter of the k-th file. |
| IndexTask.EntrySlug | gulpfile.js:174-178 | With `<prefix>` free of `-` and `<stem>` free of `.md`, the entry collected for a kept post `<prefix>-<stem>.md` has slug `<stem>`. |
| IndexTask.NewestSlugAt | gulpfile.js:174-191 | When every post is kept, position k of the rendered list carries the slug of the k-th post counted from the last. |
| IndexTask.ThreePostsNewestFirst | gulpfile.js:174-191 | Three kept posts `<p1>-<s1>.md`, `<p2>-<s2>.md`, `<p3>-<s3>.md` in glob order, each prefix free of `-` and each stem free of `.md`, give a list of three entries with slugs s3, s2, s1. |
| PostsTask.SkippedByPosts | gulpfile.js:230 | Defines the posts filter `published && published == false`. `SkippedOnlyForZeroStrings` characterises it. |
| PostsTask.RenderedPost | gulpfile.js:240-253 | The rendered page keeps the post's path and front matter. Its contents are the post template rendered with the title, excerpt, formatted date and body. |
| PostsTask.PostStep | gulpfile.js:224-256 | One file yields at most one event. |
| PostsTask.BuildPosts | gulpfile.js:215-262 | A pass yields no more events than files. |
| PostsTask.SkippedOnlyForZeroStrings | gulpfile.js:230 | The posts task skips a post exactly when its flag is a non-empty string that converts to zero. |
| PostsTask.SkippedByPostsIsDroppedByIndex | gulpfile.js:169-230 | Every post the posts task skips is also dropped from the index. |
| PostsTask.FiltersDisagreeOnFalse | gulpfile.js:169-262 | A buffered post with `published: false` is dropped from the index, yet the posts task renders its page and renames it. |
| PostsTask.IndexedPostsHavePages | gulpfile.js:169-253 | Every post the index lists gets its rendered page. |
| PostsTask.OnePagePerPost | gulpfile.js:224-256 | A pass produces exactly one rendered page per buffered post that is not skipped. |
| PostsTask.PagesRenamed | gulpfile.js:240-262 | The rendered page of every buffered, non-skipped post is in the output, renamed without its ordering prefix. |
| Watcher.OnChange | gulpfile.js:289-299 | A change either starts the page tasks or the style task, or notifies live-reload of the changed file's absolute path. |
| Watcher.DispatchByPrefix | gulpfile.js:291-299 | Paths under `./app/views` or `./posts` run templates, index, posts in that order. Otherwise paths under `./app/sass` run only the style task. Anything else only notifies live-reload. Each case holds in both directions. |
| Watcher.SassChangesRebuildStyles | gulpfile.js:295-296 | A change under `app/sass/` always rebuilds the styles. |
| Watcher.PostChangesRebuildPages | gulpfile.js:291-294 | A change under `posts/` rebuilds the pages. |
| Watcher.DistChangesReload | gulpfile.js:297-298 | A change to the built site under `dist/` only notifies live-reload. |
| Watcher.PrefixIsNotDirectoryAware | gulpfile.js:291 | The test compares characters, not path components, so a change under `app/views-old/` also rebuilds the pages. |
| ErrorShim.Threshold | gulp_modules/error.js:14 | A falsy threshold falls back to "error"; a truthy one is used as it is. |
| ErrorShim.IsFatal | gulp_modules/error.js:13-15 | Defines `isFatal`: the level's index in the list is at most the threshold's. `FatalityTable` gives its full outcome table. |
| ErrorShim.HandleError | gulp_modules/error.js:23-28 | The message is always logged. The decision is to exit exactly when the level is fatal, and the exit status is 1. |
| ErrorShim.OnError | gulp_modules/error.js:36-38 | An error is logged, and ends the process with status 1 exactly when the threshold is one of the listed levels. |
| ErrorShim.OnWarning | gulp_modules/error.js:46-48 | A warning is logged, and ends the process with status 1 only under the threshold "warning". |
| ErrorShim.FatalityTable | gulp_modules/error.js:5-15 | An unknown level is always fatal. "error" is fatal unless the threshold is unknown. "warning" is fatal only under "warning". |
| ErrorShim.DefaultThreshold | gulp_modules/error.js:5-15 | With no threshold, "error" is fatal and "warning" is not: `onError` exits with status 1 and `onWarning` only logs. |
| ErrorShim.UnknownLevelAlwaysFatal | gulp_modules/error.js:9-14 | A level not in the list, such as "info", is fatal under every threshold. |
| ErrorShim.WarningThresholdMakesAllFatal | gulp_modules/error.js:14 | Under the threshold "warning" every level is fatal. |
| ErrorShim.UnknownThresholdSparesKnownLevels | gulp_modules/error.js:14 | Under a threshold not in the list, neither listed level is fatal. |
| ErrorShim.FatalityMonotone | gulp_modules/error.js:14 | A threshold at a higher position keeps every fatal level fatal. |
| ErrorShim.FalsyThresholdIsError | gulp_modules/error.js:14 | Any falsy threshold decides like "error". |
| ErrorShim.HandleErrorAsWritten | gulp_modules/error.js:13-28 | Without a global `fatalLevel` binding the handler logs the message and then throws a ReferenceError. With one, it decides like `HandleError` under that threshold. |
| ErrorShim.UndeclaredThresholdThrows | gulp_modules/error.js:14-26 | As written, when no `fatalLevel` exists both handlers log the message and then throw a ReferenceError, while the intended handler only logs a warning. |

## Left out

- Template compilation (jade), markdown conversion, front matter parsing and `moment` date formatting are uninterpreted parameters. The date formatter receives the raw front matter value.
- `formatDate` is a fixed function, so a post without a `date` always gets the same string. `moment(undefined)` reads the clock and gives the build day's date; the clock is not modelled, and no proved property depends on that value.
- Reading the template files, `gulp.dest`, the static server, live-reload itself, `gutil.log` and `process.exit` are I/O. The model returns what would be written, logged or exited with.
- `path.parse` is not modelled; file paths arrive already split into directory, base name and extension. `path.relative` is not modelled either; `Watcher.OnChange` receives the relative path.
- The `clean`, `vendor`, `sass`, `js` and `templates` tasks, task registration and dependency lists are plugin wiring and are not part of this model.
- `gulp.run` starts tasks concurrently, and streams apply back-pressure. The model runs each pass sequentially and returns the task names in call order.
- What Node does with an `error` event (a listener on the pipeline, or a crash when there is none) is not modelled; such events are recorded in the output.
- Front matter values are undefined, null, booleans, finite numbers and strings. NaN, the infinities, dates, arrays and objects are not represented.
- JsValues.LooselyEqualsFalseCases: a string whose value underflows to zero (such as "1e-400") is loosely equal to `false` in JavaScript, but here counts as non-zero, because floating point rounding is not modelled.
- `Buffer`/`String` conversions of file contents are identity on bytes; character encodings are not modelled.

## Findings

| source | as written | input that shows it | evidently intended | confidence | as-written member | corrected member |
|---|---|---|---|---|---|---|
| gulp_modules/error.js:14 | `isFatal` reads `fatalLevel`, which is declared nowhere in the module, so evaluating `fatalLevel \|\| 'error'` throws a ReferenceError right after the message is logged | any call of `onError` or `onWarning` (for example a warning that should only be logged) when no global `fatalLevel` exists | `fatalLevel` is an optional setting whose absence means "error": errors exit with status 1, warnings only log | high, not executed | ErrorShim.HandleErrorAsWritten, ErrorShim.UndeclaredThresholdThrows | ErrorShim.HandleError, ErrorShim.DefaultThreshold |
