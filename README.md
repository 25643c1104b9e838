# glog: buffered, rotating log writer — Dafny model

This project models the core of `glog`, a Go package whose `Log` object
buffers formatted log lines in memory and flushes them to standard output
or to a size-limited, numbered log file. The model covers these parts:

- **The buffer and its flush trigger.** `append` drops the line while the
  instance is paused. Otherwise it adds the line at the end of the buffer.
  When the line count times 1024 exceeds the size threshold, it flushes.
- **`Flush`.** It swaps the buffer for an empty one. A non-empty buffer is
  joined into one block. The block goes to the console in console mode or
  when there is no path; otherwise it goes to the rotating writer.
- **`Pasue` / `Continue`.** They toggle the pause flag.
- **The rotating writer `writeToFile`.** While the current file exists and
  is larger than the threshold, it rewrites the file name to its next
  name. It then creates the file if it is missing and appends the block.
- **The next-name rewrite.** The regular expression
  `_\d{1,}\.?[^\\/]*?$` picks the suffix from the leftmost `_` that is
  followed by a digit and by no later `/` or `\`. Inside that suffix,
  every maximal run of digits becomes its value plus one, computed by
  `strconv.Atoi` and `strconv.Itoa` with Go's 64-bit `int`.
- **The initial path of `New`.** It applies `path.Ext` and
  `strings.Replace(..., 1)`, and adds a `-YYYYMMDD_0` stamp.

Modules:

- `Decimal` (decimal.dfy): digit strings, `Itoa`, the clamping `Atoi` and the wrapping successor `Bump`.
- `FileName` (filename.dfy): the next-name rewrite.
- `NewPath` (newpath.dfy): `path.Ext`, `strings.Index`/`Replace` and the initial path.
- `Logging` (log.dfy): the `Log` class, the `Disk` class and the rotation loop's specification.
- `Wrappers` (wrappers.dfy): `Option`.

Modelling choices:

- The environment mode and the size threshold are method parameters.
- The date is an eight-digit string parameter.
- The file system is a `Disk` object holding a map from path to contents. The size of a file is the length of its contents.
- Each call is atomic.
- What `Log` writes is recorded in a ghost sequence `emitted` of `Console(text)` / `File(path, text)` events.

## Model

| member | source | states |
|---|---|---|
| `Decimal.Itoa` | log.go:270 | `strconv.Itoa` of a non-negative number is a non-empty digit string whose value is that number, with no leading zero |
| `Decimal.ItoaCanonical` | log.go:270 | printing the `Value` of a canonical digit string (no leading zero) gives that string back |
| `Decimal.Atoi` | log.go:269 | `strconv.Atoi` never exceeds the largest 64-bit `int`; it is the run's value exactly when that value is in range, and the largest `int` (`ErrRange`) otherwise |
| `Decimal.AtoiOfItoa` | log.go:269-270 | `Atoi` reads back every non-negative 64-bit number `Itoa` prints |
| `Decimal.ItoaOfAtoi` | log.go:269-270 | `Itoa` prints back every canonical digit run whose value `Atoi` reads in range |
| `Decimal.Bump` | log.go:269-270 | a run whose value is below the largest 64-bit `int` is replaced by canonical digits (no leading zero) whose value is one more; the largest value wraps to the text of the smallest `int` |
| `FileName.FindMatch` | log.go:55 | the regex match found is the leftmost position where `_`, a digit, and no later `/` or `\` occur; with no result, no position matches |
| `FileName.LeadingDigits` | log.go:56 | the run of digits `\d{1,}` takes at a position is maximal: all digits, and the next character (if any) is not one |
| `FileName.IncrementRuns` | log.go:268-271 | `reg2.ReplaceAllFunc` yields text exactly when it gets text, and a leading non-digit stays in front |
| `FileName.IncrementRunsNoDigits` | log.go:268-271 | text without digits passes through `reg2.ReplaceAllFunc` unchanged |
| `FileName.IncrementRunsCollapse` | log.go:268-271 | without 64-bit overflow the rewrite keeps the layout: each maximal run of digits is replaced in place and every other character is kept, in order |
| `FileName.IncrementRunsValues` | log.go:268-271 | the rewrite increments every run of digits of the suffix by one, keeping their number and order |
| `FileName.IncrementRunsTexts` | log.go:268-271 | each run of digits becomes `strconv.Itoa` of its value plus one, so leading zeros are dropped |
| `FileName.PiecesDetermine` | log.go:268-271 | a string is determined by its layout and its run texts, so the two lemmas above fix the rewritten suffix exactly |
| `FileName.RewriteKeepsMatch` | log.go:55-56 | a rewritten suffix still starts with `_` and a digit and still holds no separator |
| `FileName.NextNameKeepsMatch` | log.go:267-272 | after a rotation the leftmost match starts at the same place, the text before it is unchanged, and the suffix is the rewritten one |
| `FileName.NextNameEffect` | log.go:267-272 | one rotation keeps the prefix and the suffix's layout, replaces every run in the suffix in place by the canonical text of its value plus one, increments the ordinal, and changes the name |
| `FileName.NextName` | log.go:267-272 | a name with no match is returned unchanged; otherwise the text before the leftmost match is kept |
| `FileName.RotateDatedName` | log.go:267-272 | `app-20240301_3.log` becomes `app-20240301_4.log` (the date is before the match and is untouched) |
| `FileName.SuffixRewriteBumpsExtension` | log.go:268-271 | the digits in the extension grow too: `_3.mp4` becomes `_4.mp5` |
| `FileName.SuffixRewriteDropsZeros` | log.go:269-270 | leading zeros are lost: `_03` becomes `_4` |
| `NewPath.Ext` | log.go:82 | `path.Ext` is the suffix of the path from a dot that is followed by neither dot nor `/`, or empty when every dot has a `/` after it |
| `NewPath.ExtOfTail` | log.go:82 | a path ending in a dot-led tail without dots or separators has that tail as its extension |
| `NewPath.IndexFrom` | log.go:86 | `strings.Index` returns the first occurrence of the pattern, or none when it does not occur |
| `NewPath.ReplaceFirst` | log.go:86 | `strings.Replace(s, old, new, 1)`: unchanged when the pattern does not occur; otherwise the first occurrence, and only it, is replaced, changing the length by the difference |
| `NewPath.InitialPath` | log.go:82-87 | `New` as written: without an extension, the template followed by 15 characters (`-YYYYMMDD_0.log`), a rotatable name ending in `.log`; with one, the template grows by the 11 characters of `-YYYYMMDD_0` |
| `NewPath.InitialPathFixed` | log.go:81-87 | the intended initial path has a rotatable suffix (unless the extension holds a `\`) and keeps the template's extension, `.log` when there was none |
| `NewPath.InitialPathAgrees` | log.go:82-87 | when the template has no extension (the path is the template plus `-YYYYMMDD_0.log`), or its extension occurs only at its end, the path as written equals the intended one |
| `NewPath.InitialPathExample` | log.go:81-87 | `app.log` on 2024-03-01 gives `app-20240301_0.log` |
| `NewPath.InitialPathMisplacesOrdinal` | log.go:86 | `my.logger/app.log` gives `my-20240301_0.logger/app.log`, which has no match, so rotation leaves it unchanged |
| `Logging.ConcatAppend` | log.go:234 | joining two consecutive groups of lines is joining each group, in order |
| `Logging.Concat` | log.go:234 | `strings.Join(list, "")` is exactly as long as its lines together |
| `Logging.AppendTo` | log.go:262-278 | appending creates the file when it is missing, keeps its old contents in front, grows it by exactly the content and ends it with the content; no other file changes |
| `Logging.RotateStep` | log.go:266-273 | one step of the loop raises the ordinal by one, keeps the loop rotatable and leaves fewer files to skip |
| `Logging.Chain` | log.go:260-275 | the paths visited: every one before the last exists and is over the threshold, each is followed by its next name, their ordinals rise by one per step, and the last is missing or within the threshold |
| `Logging.ChainStep` | log.go:266-273 | an oversize path is followed by the chain of its next name, and both settle on the same path |
| `Logging.ChainDistinct` | log.go:260-275 | the loop never visits the same path twice |
| `Logging.ResolveEndsChain` | log.go:260-275 | the path the writer settles on is the last path of the chain |
| `Logging.Resolve` | log.go:260-275 | the settled path is missing or within the threshold; from an oversize file its ordinal is larger, otherwise the path is kept |
| `Logging.Log.constructor` | log.go:81-92 | a new instance has the dated initial path, an empty buffer, is not paused and has written nothing |
| `Logging.Log.Pause` | log.go:109-111 | sets the pause flag; nothing else changes |
| `Logging.Log.Continue` | log.go:114-116 | clears the pause flag; nothing else changes |
| `Logging.Log.WriteToFile` | log.go:257-280 | the path becomes the one the rotation loop settles on; the content is appended to that file (created if missing) and to no other; one file write is recorded |
| `Logging.Log.Flush` | log.go:226-240 | the buffer ends empty (rotation is required to end only when the flush writes to a file); an empty buffer writes nothing and touches no file; otherwise the joined lines, in order, go to the console with a newline iff the mode is console or the path is empty, and else to the rotating writer |
| `Logging.Log.Append` | log.go:241-255 | while paused, nothing changes (rotation is required to end only when the append flushes to a file); otherwise the line goes at the end of the buffer, and a flush of all buffered lines (the new one last) happens exactly when the new count times 1024 exceeds the threshold |

## Left out

- The periodic flusher `interval` and its busy-wait on the pause flag (log.go:98-106) are concurrency and are not modelled. For the same reason the `sync.Mutex` is not modelled, and every call is atomic.
- Line formatting in `Info`, `Warn`, `Error`, `Debug`, `Panic`, their `f` variants and the `Log`/`Logf` dispatchers (log.go:119-217) is not modelled. It depends on the clock, `fmt`, `runtime.Caller` and `debug.Stack`. A formatted line is an opaque string handed to `Append`.
- `Db` (log.go:220-223) calls a foreign database handle and is not modelled. Its buffering is `Append` of an opaque line.
- The global setters (log.go:61-78) are not modelled. The mode and the threshold are parameters.
- `New`'s clock is not modelled; the date is a parameter. Its `duration` field is left out because it only feeds the periodic flusher.
- Failures of `os.Stat`, `os.MkdirAll`, `os.Create`, `os.OpenFile` and `WriteString` are not modelled. Every file operation is taken to succeed, and directories are not modelled.
- Strings are sequences of characters, each standing for one byte of Go's byte strings.
- Logging.Log.WriteToFile: it requires `Rotatable`, so the rotation loop must end without 64-bit overflow. The source has no such condition. It loops forever on an oversize file whose name has no rotatable suffix, and it does not guard the ordinal against `int` overflow. `Bump` itself models that wrap-around; the writer's precondition only excludes reaching it.
- Logging.Log.Flush: the same `Rotatable` precondition, for the same reason, but only when the buffer is non-empty, the mode is not console and the path is not empty, that is, only when the flush reaches `writeToFile`.
- Logging.Log.Append: the same `Rotatable` precondition, for the same reason, but only when the instance is not paused, the new count times 1024 exceeds the threshold, the mode is not console and the path is not empty, that is, only when the append reaches `writeToFile`. The product `count*1024` is taken without 64-bit overflow.
- Logging.Log.constructor: it derives the path with `InitialPathFixed` rather than the source's `InitialPath`; see Findings.

## Findings

| source | as written | input that shows it | evidently intended | confidence | as-written member | corrected member |
|---|---|---|---|---|---|---|
| log.go:86 | `strings.Replace(filePath, ext, "-YYYYMMDD_0"+ext, 1)` replaces the first occurrence of the extension text anywhere in the path | `New(d, "my.logger/app.log")` yields `my-20240301_0.logger/app.log`. The stamp lands in the directory name, and the name then has no `_<digits>` suffix free of `/`. Once that file exceeds the threshold, `writeToFile` rewrites the name to itself and repeats forever while holding the lock | insert `-YYYYMMDD_0` just before the extension that ends the path | medium (not executed) | `NewPath.InitialPathMisplacesOrdinal` | `NewPath.InitialPathFixed` |
