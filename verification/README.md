# Minimal module compatibility for gobind's importer

`gobind` type-checks Go packages through its own importer, `mmcImporter`.
When a package path cannot be imported in GOPATH mode, the importer falls back
to "minimal module compatibility". It loads the package's sources, parses
them, and rewrites every import literal so that its major-version segment
(the `/v2` of `example.com/lib/v2/pkg`) disappears. Then it type-checks the
rewritten files.

This project models that core in Dafny and proves properties of the model:

- `GoStrings`: Go strings as byte sequences, with `strings.Split` and
  `strings.Join` on `"/"`. Splitting never yields an empty list, and the two
  undo each other.
- `MajorVersion`: `isVNPart`. The source asks Go's formatted scanner to read
  `"v%d"` from a segment. That read is a prefix scan:
  - a leading `v`;
  - optional spaces, where a newline stops the scan;
  - an optional sign;
  - at least one ASCII digit, taken greedily, with a value that fits a
    64-bit `int`.

  Whatever follows the digits is ignored.
- `PathStrip`: `removeMajorVersionFromPath`, both as a function and as the
  source's loop. It comes with the properties of its output:
  - the byte count;
  - which segments survive, and in what order;
  - the closing quote;
  - idempotence;
  - that no byte is ever added.
- `StripCases`: the two shapes a versioned path takes, a version segment in
  the middle or at the end.
- `Scenarios`: the inputs and expected results of the repository's table
  tests, derived from the model. Each path is first handled segment by
  segment through `StripCases`, then tied to the test's string.
- `MmcImporter`: `mmcImporter.Import`. It tries the standard importer first,
  and on failure it loads, parses, rewrites and checks. The foreign
  collaborators are parameters, and each run records which of them it called.

The comment on `isVNPart` (cmd/gobind/mmc_importer.go:139-141) says it
expects a segment of the form `vN` or `vN"`, and the examples on
`removeMajorVersionFromPath` (cmd/gobind/mmc_importer.go:109-112) only show
`/v6`. The `"v%d"` scan accepts more than that. Any segment that starts with
`v`, then optional spaces and a sign, then a digit, is accepted, whatever
follows the digits. That includes `v2mod` and `v-1`. This model follows the
code. `Scenarios.AcceptsV2mod` and `Scenarios.AcceptsNegative` pin the
difference down.

The quote handling looks only for a closing double quote. An import path
written as a raw string literal in backquotes is also legal Go. If its last
segment is a version segment, the closing backquote goes with it
(`Scenarios.RawLiteralLosesBackquote`). The model reproduces that behaviour.

## Model

| member | source | states |
|---|---|---|
| GoStrings.Split | cmd/gobind/mmc_importer.go:118 | `strings.Split` on "/" returns at least one part. No part contains "/". The parts' lengths plus one separator between each two add up to the input length. |
| GoStrings.JoinSplit | cmd/gobind/mmc_importer.go:118-132 | Joining the parts of a split with "/" gives back the original string. |
| GoStrings.SplitJoin | cmd/gobind/mmc_importer.go:118-132 | Splitting a join of slash-free parts gives back exactly those parts. |
| GoStrings.Join | cmd/gobind/mmc_importer.go:132 | `strings.Join` on "/": joining no parts gives the empty string. Otherwise the result starts with the first part and is as long as all the parts plus one separator between each two. |
| GoStrings.JoinAppend | cmd/gobind/mmc_importer.go:132 | Joining two non-empty part lists is the two joins with one "/" between them. |
| MajorVersion.ScanVersion | cmd/gobind/mmc_importer.go:142-147 | A successful "v%d" read needs a leading `v` and a decimal digit somewhere after it, and its value lies in the 64-bit `int` range. |
| MajorVersion.IsVNPart | cmd/gobind/mmc_importer.go:139-147 | A version segment starts with `v`, is at least two bytes long, and has a decimal digit after the `v`. |
| MajorVersion.RejectsWithoutNumber | cmd/gobind/mmc_importer.go:139-147 | `v` alone, or `v` followed by a byte that is neither a space, a sign nor a digit (`vx`, `v.`, `v"`), is not a version segment. |
| MajorVersion.AcceptsVersionPrefix | cmd/gobind/mmc_importer.go:142-147 | `v`, then a digit run whose value is below 2^63, then anything not starting with a digit, is read as exactly that value. So every `vN` and `vN"` segment is a version segment. |
| MajorVersion.RejectsOverflow | cmd/gobind/mmc_importer.go:143-146 | A digit run of 2^63 or more makes the read fail, so the segment is not a version segment. |
| MajorVersion.ScanIgnoresQuote | cmd/gobind/mmc_importer.go:139-146 | Appending a closing quote to a segment never changes what the read returns. |
| MajorVersion.QuoteKeepsVerdict | cmd/gobind/mmc_importer.go:142-147 | A segment with a quote appended is a version segment exactly when the segment without it is one. |
| PathStrip.Strip | cmd/gobind/mmc_importer.go:114-137 | The reported count is the input length minus the output length. It is never negative, and it is positive exactly when some segment is a version segment. A zero count means the path comes back unchanged. |
| PathStrip.RemoveMajorVersionFromPath | cmd/gobind/mmc_importer.go:114-137 | The source's function, written as it is, computes the same pair as `Strip`. |
| PathStrip.FilterParts | cmd/gobind/mmc_importer.go:120-130 | The source's loop, with its overwritten `endQuote` flag, builds exactly the kept segments and the flag `RestoresQuote` describes. |
| PathStrip.Kept | cmd/gobind/mmc_importer.go:120-130 | The `nonVN` list is never longer than the segment list, and none of its segments is a version segment. |
| PathStrip.RestoresQuote | cmd/gobind/mmc_importer.go:120-126 | The final `endQuote`, computed by replaying the loop's overwriting updates segment by segment, is what decides whether a quote is put back: true exactly when the last segment is a quoted version segment. |
| PathStrip.EndQuoteUnsetBeforeLast | cmd/gobind/mmc_importer.go:125 | Until the loop reaches the last segment, `endQuote` stays false, whatever version segments came before. |
| PathStrip.KeptMembers | cmd/gobind/mmc_importer.go:120-130 | A segment survives exactly when it is an input segment that `isVNPart` rejects. |
| PathStrip.KeptAppend | cmd/gobind/mmc_importer.go:120-130 | Filtering distributes over concatenation, so surviving segments keep their relative order. |
| PathStrip.KeptMeasure | cmd/gobind/mmc_importer.go:120-136 | Each dropped segment is at least two bytes long. Nothing is dropped exactly when there is no version segment, and then every segment survives. |
| PathStrip.StripSegments | cmd/gobind/mmc_importer.go:118-135 | The output's segments are the surviving input segments in order. The restored quote, if any, sits on the last of them. |
| PathStrip.NoVersionPartLeft | cmd/gobind/mmc_importer.go:120-135 | No segment of the output is a version segment. |
| PathStrip.StripIdempotent | cmd/gobind/mmc_importer.go:114-137 | Stripping the output again returns it unchanged, with count 0. |
| PathStrip.StripKeepsQuotedLiteral | cmd/gobind/mmc_importer.go:122-135 | A path with an opening and a closing quote is stripped to a path that still has both. |
| PathStrip.StripNeverAddsBytes | cmd/gobind/mmc_importer.go:129-135 | The output's bytes form a sub-multiset of the input's, so the quote is only ever put back, never added. |
| StripCases.DropsInnerVersion | cmd/gobind/mmc_importer.go:109-112 | A version segment between ordinary segments is removed together with one "/", so the count is its length plus one. |
| StripCases.DropsFinalVersion | cmd/gobind/mmc_importer.go:122-135 | A final version segment is removed with the "/" before it. A closing quote it carried is put back, and the count shrinks by one for that quote. |
| StripCases.KeepsUnversioned | cmd/gobind/mmc_importer.go:114-137 | A path whose segments are all ordinary comes back unchanged, with count 0. |
| Scenarios.RejectsTestSegments | cmd/gobind/mmc_importer_test.go:88-90 | `abc`, `/v1"` and `/v44` are not version segments, and neither is `gomobile-v2mod`. |
| Scenarios.AcceptsV44 | cmd/gobind/mmc_importer_test.go:91 | `v44` is read as 44. |
| Scenarios.AcceptsV0 | cmd/gobind/mmc_importer_test.go:92 | `v0` is read as 0. |
| Scenarios.AcceptsV0Quote | cmd/gobind/mmc_importer_test.go:93 | `v0"` is read as 0. |
| Scenarios.AcceptsV1Quote | cmd/gobind/mmc_importer_test.go:94 | `v1"` is read as 1. |
| Scenarios.AcceptsV3333Quote | cmd/gobind/mmc_importer_test.go:95 | `v3333"` is read as 3333. |
| Scenarios.AcceptsV2mod | cmd/gobind/mmc_importer.go:145 | `v2mod` is read as 2: the scan ignores what follows the digits. |
| Scenarios.AcceptsNegative | cmd/gobind/mmc_importer.go:145 | `v-1` is read as -1: a sign may precede the digits. |
| Scenarios.RawLiteralLosesBackquote | cmd/gobind/mmc_importer.go:122-135 | The raw literal `` `example.com/org/library/v2` `` becomes `` `example.com/org/library `` with count 4. Its closing backquote is lost, because only a double quote is put back. |
| Scenarios.StripsV6 | cmd/gobind/mmc_importer_test.go:33-37 | `example.com/org/library/v6/pkg` becomes `example.com/org/library/pkg` with count 3. |
| Scenarios.StripsV999 | cmd/gobind/mmc_importer_test.go:38-42 | `example.com/org/library/v999/pkg` becomes `example.com/org/library/pkg` with count 5. |
| Scenarios.KeepsUnversionedPath | cmd/gobind/mmc_importer_test.go:43-47 | `example.com/org/library/pkg` is unchanged, with count 0. |
| Scenarios.StripsQuotedV3333 | cmd/gobind/mmc_importer_test.go:49-53 | `"example.com/org/library/v3333/subpkg"` becomes `"example.com/org/library/subpkg"` with count 6. |
| Scenarios.StripsQuotedFinalV33 | cmd/gobind/mmc_importer_test.go:54-58 | `"example.com/org/library/v33"` becomes `"example.com/org/library"` with count 4. |
| Scenarios.KeepsUnversionedQuoted | cmd/gobind/mmc_importer_test.go:59-63 | `"example.com/org/library/pkg"` is unchanged, with count 0. |
| Scenarios.StripsQuotedFinalV2 | cmd/gobind/mmc_importer_test.go:64-68 | `"example.com/org/gomobile-v2mod/v2"` becomes `"example.com/org/gomobile-v2mod"` with count 3. |
| MmcImporter.RewriteImports | cmd/gobind/mmc_importer.go:69-78 | The rewrite keeps the number and order of imports and the rest of the file. It replaces each import literal with its stripped form. |
| MmcImporter.RewriteFileImports | cmd/gobind/mmc_importer.go:69-78 | The source's in-place loop over `astf.Imports` produces the rewritten file. |
| MmcImporter.RewriteStrips | cmd/gobind/mmc_importer.go:69-78 | After the rewrite, a further strip leaves every import literal unchanged. |
| MmcImporter.RewriteIdempotent | cmd/gobind/mmc_importer.go:69-78 | Rewriting a rewritten file changes nothing. |
| MmcImporter.RewriteKeepsStripped | cmd/gobind/mmc_importer.go:69-78 | A file whose import literals strip to themselves is left exactly as it is. |
| MmcImporter.RewriteFixedIff | cmd/gobind/mmc_importer.go:69-78 | The rewrite leaves a file alone exactly when none of its import literals has a version segment. |
| MmcImporter.RewriteKeepsQuoted | cmd/gobind/mmc_importer.go:69-78 | Import literals that are double-quoted Go strings stay double-quoted after the rewrite. |
| MmcImporter.ParseAndRewrite | cmd/gobind/mmc_importer.go:61-81 | The pass succeeds exactly when every source parses. On success it yields one rewritten file per source, in order. On failure its error is the first failing source's error, and every earlier source parsed. |
| MmcImporter.ParseSources | cmd/gobind/mmc_importer.go:59-81 | The source's loop returns on the first parse error and otherwise appends each rewritten file. It gives the same outcome as `ParseAndRewrite`. |
| MmcImporter.ParseStopsAt | cmd/gobind/mmc_importer.go:62-65 | If sources before index i parse and source i does not, the pass fails with source i's error. |
| MmcImporter.ParseSucceeds | cmd/gobind/mmc_importer.go:61-81 | If every source parses, the pass yields exactly the rewritten parsed files, in the loader's order. |
| MmcImporter.ParsedStripped | cmd/gobind/mmc_importer.go:61-81 | Every file the pass hands on has only fully stripped import literals. |
| MmcImporter.Import | cmd/gobind/mmc_importer.go:41-88 | The standard importer is always asked first. If it succeeds, its answer is returned and nothing else runs. If it fails, the source loader runs next. Any file set given to the type checker has fully stripped imports. |
| MmcImporter.BaselineFirst | cmd/gobind/mmc_importer.go:47-54 | The sources are loaded exactly when the standard importer fails. |
| MmcImporter.FallbackChecksRewrittenFiles | cmd/gobind/mmc_importer.go:83-87 | When the fallback reaches the type checker, it gets the rewritten parsed files in the loader's order, and its verdict is the result. |
| MmcImporter.FallbackErrorSource | cmd/gobind/mmc_importer.go:52-87 | A fallback error always comes from the loader, from a parse or from the type checker. The standard importer's own error is never reported. |

## Left out

- The lazy, unsynchronised creation of the standard importer (cmd/gobind/mmc_importer.go:43-45) is not modelled. It is a concurrency concern, and the importer is a parameter here.
- The source directory (`filepath.Join(GOPATH, "src", path)`), `loadPackageSources` and `loadFileContents` are not modelled. They are file-system I/O and build-tag filtering. The loader is a parameter that returns the sources or an error.
- Go's map iteration order over the loaded sources is random. The model takes the sources in the order the loader lists them, and every property holds for any order.
- `parser.ParseFile`, `types.Config.Check` and `importer.ForCompiler` are foreign calls. They are opaque parameters.
- MmcImporter.Import: `types.Config.Check` can return a partial package together with its first error (cmd/gobind/mmc_importer.go:87), and `Import` passes both on. The model's type checker returns a package or an error, never both, so that partial package is not modelled.
- The type checker calls back into `mmcImporter` for the package's own imports. That recursion is not modelled.
- AST positions after an import literal is mutated are not modelled. The source itself leaves their behaviour open. A parsed file is its import literals plus an untouched remainder.
- Go's `int` is taken to be 64 bits wide. So a digit run of 2^63 or more after `v` is rejected (`MajorVersion.RejectsOverflow`).
- The formatted scanner works on runes. The model recognises its space runes by their UTF-8 byte encodings. Any other byte, including invalid UTF-8, is neither space, sign nor digit, so the scan fails there, as it does in Go.
- The manual test `Test_mmcImporter` is not modelled. It needs a real GOPATH package.
