# Wallflow theme: cache resolution, palette assembly and watcher toggle

A Dafny model of the decision logic in `src/extension.ts` of the wallflow
VS Code theme extension, which builds an editor colour theme from the
16-colour palette that wallflow (or pywal) writes to a cache directory.

- `CachePath` models `getWallflowCachePath`. It builds the ordered candidate
  list from the home directory, the platform, `XDG_CACHE_HOME` and
  `LOCALAPPDATA`. It then probes the list in a loop (`Probe`) and returns the first
  existing path, or the first candidate when none exists. Paths are
  sequences of segments, and the existence check is a parameter.
- `TextSplit` states the JavaScript string operations the extension uses:
  `split(/\s+/, limit)`, `split('\n')`, `join`, `includes` and the line
  filter. `split(/\s+/)` has two lemmas. One says it drops exactly the
  whitespace characters. The other says words separated by whitespace
  runs of any length and mix (one space, several spaces, `\r\n`) split back
  into the same words, so a whole run counts as one separator. `split('\n')` and `join('\n')`
  undo each other. The line filter keeps lines in their original order,
  and filtering twice is filtering once. `includes` is stated as
  "the pattern occurs at some position".
- `Palette` models `generateColorThemes`. It keeps at most 16 palette
  tokens and converts each to a colour. It parses `colors.json` strictly,
  then retries once with every `wallpaper` line dropped. Slot 0 and then
  slot 7 are overwritten. The failure policy aborts when no colours were
  read, warns when only a later step failed, and otherwise proceeds. The
  plain theme is written first, then the bordered one. `Color(...)`,
  `JSON.parse` and the theme template are abstract partial functions, and a
  failure stands for a thrown exception.
  File contents and existence are inputs. A JavaScript array is a
  `seq<Option<C>>` in which `None` is a hole. Assigning `colors[7]` on a
  shorter array grows it to eight slots, and the slots in between are holes.
- `AutoUpdate` models the nullable `autoUpdateWatcher` handle. A class holds
  the handle together with a count of created watchers and the set of closed
  ones. Its methods are `activate`, the configuration-change handler and
  `deactivate`.

Behaviour of the code that a reader might not expect, and that the model
follows:

- The code never requires exactly 16 colours. Any number of tokens up to 16
  is accepted when every token converts. Only an unassigned or empty
  `colors` aborts (line 149), and the token list is never empty.
- A short palette file that ends in a newline yields one extra empty token,
  and a file that starts with whitespace yields an empty first token
  (`TokensOfPaletteFile`, `LeadingWhitespaceGivesEmptyToken`).
- The two theme writes are not guarded, and neither are the template
  calls. If building or writing the plain theme throws, the exception leaves
  the function and the bordered theme is not attempted.
- The cache directory is resolved once, when the module loads (line 58). A
  higher-priority directory created later is not picked up until restart.
  The model resolves on demand and takes the files under the resolved
  directory as inputs.
- `deactivate` closes the watcher but leaves the handle set.

## Model

| member | source | states |
|---|---|---|
| CachePath.Candidates | src/extension.ts:21-43 | the list has 2 to 4 entries; it ends with `home/.cache/wal`; it starts with `XDG_CACHE_HOME/mksg/wallflow` when that variable is set, and it is one entry longer exactly then |
| CachePath.CandidatesByPlatform | src/extension.ts:28-43 | after the optional XDG entry: darwin gives `Library/Caches/mksg/wallflow`, `Library/Application Support/wallflow`, pywal; win32 gives `<LOCALAPPDATA or home/AppData/Local>/mksg/wallflow`, pywal; any other platform gives `home/.cache/mksg/wallflow`, pywal |
| CachePath.OnlyLastIsPywal | src/extension.ts:23-43 | every candidate before the last is a wallflow directory (last segment `wallflow`) and differs from the pywal path |
| CachePath.FirstExisting | src/extension.ts:46-50 | the index found exists, and no earlier candidate does; no index means no candidate exists |
| CachePath.Resolve | src/extension.ts:45-54 | the resolved path is always one of the candidates |
| CachePath.ResolvePicksEarliest | src/extension.ts:46-50 | the earliest existing candidate is the one returned |
| CachePath.ResolveExistsIff | src/extension.ts:45-54 | the result exists exactly when some candidate exists; when none does, the result is the first candidate |
| CachePath.XdgWins | src/extension.ts:23-50 | an existing `XDG_CACHE_HOME/mksg/wallflow` is chosen on every platform |
| CachePath.PywalOnlyAsLastResort | src/extension.ts:41-54 | the pywal path is returned exactly when it exists and no earlier candidate does |
| CachePath.GetWallflowCachePath | src/extension.ts:16-55 | the pushes build exactly the candidate list, and the result is the earliest existing candidate or else the first one |
| CachePath.Probe | src/extension.ts:45-54 | the probing loop returns the earliest existing path, or the first path when none exists |
| TextSplit.Fields | src/extension.ts:119 | `split(/\s+/)` yields at least one field and no field holds whitespace |
| TextSplit.SplitWhitespace | src/extension.ts:119 | with a limit, the result is at most `limit` long and is a prefix of the unlimited split; it is the whole split when shorter than the limit |
| TextSplit.FieldsKeepEveryOtherChar | src/extension.ts:119 | the fields, concatenated in order, are exactly the non-whitespace characters of the text |
| TextSplit.FieldsAfterRun | src/extension.ts:119 | a word, a whitespace run of any length, and a text not starting with whitespace split into that word followed by the text's own fields: the whole run is one separator |
| TextSplit.FieldsOfInterleave | src/extension.ts:119 | non-empty words separated by whitespace runs of any length and mix (spaces, `\r\n`, ...) split back into the same words in order; a trailing run adds one empty field |
| TextSplit.SplitOn | src/extension.ts:139 | `split('\n')` yields at least one piece and no piece contains a newline |
| TextSplit.JoinSplit | src/extension.ts:139-141 | joining the lines of a split with `\n` gives the text back |
| TextSplit.SplitJoin | src/extension.ts:139-141 | splitting joined newline-free lines gives the lines back |
| TextSplit.JoinWith | src/extension.ts:141 | `join(sep)` starts with the first piece and puts the separator right after it when there is a second piece |
| TextSplit.Contains | src/extension.ts:140 | `includes` holds exactly when the pattern is a prefix of some suffix of the text |
| TextSplit.KeepLinesWithout | src/extension.ts:140 | kept lines lack the marker and come from the input, and every input line lacking the marker is kept |
| TextSplit.KeepLinesAppend | src/extension.ts:140 | the filter distributes over concatenation, so kept lines stay in their original order |
| TextSplit.KeepLinesUnmarked | src/extension.ts:140 | when no line has the marker, the filter returns every line unchanged |
| TextSplit.DropLinesUnmarked | src/extension.ts:138-141 | text without marked lines passes through the split/filter/join unchanged |
| TextSplit.DropLinesContaining | src/extension.ts:138-141 | the lines of the filtered text are the kept lines in order; when every line was dropped the text is empty |
| TextSplit.SplitOnKept | src/extension.ts:139-141 | newline-free lines, filtered and joined with newlines, split back into exactly the kept lines |
| TextSplit.DropLinesIdempotent | src/extension.ts:138-141 | filtering the filtered text changes nothing |
| Palette.Tokens | src/extension.ts:117-119 | between 1 and 16 tokens, whitespace-free, a prefix of the file's fields, and all of them when there are fewer than 16 |
| Palette.TokensOfPaletteFile | src/extension.ts:117-120 | for a file of words separated by any whitespace runs (CRLF line ends and multiple spaces included), the tokens are its first 16 words in file order and the rest is ignored; a short file ending in a whitespace run (a final line break) adds one empty token |
| Palette.LeadingWhitespaceGivesEmptyToken | src/extension.ts:117-120 | palette text starting with whitespace has an empty first token |
| Palette.ToColors | src/extension.ts:120 | conversion succeeds exactly when every token converts; the colours are the tokens' colours, one per token, in order |
| Palette.SetSlot | src/extension.ts:144-145 | JavaScript slot assignment: the slot holds the new colour, other slots are unchanged, and writing past the end grows the array with holes |
| Palette.PrimaryColors | src/extension.ts:117-120 | palette colours exist exactly when the file was read and every token converts; there is one colour per token, at most 16, and slot k is the colour of token k |
| Palette.ParseColorsJson | src/extension.ts:133-142 | a strict success is used as is; the retry runs only after a strict failure and parses the text without `wallpaper` lines; failure means both attempts failed |
| Palette.RetryNeedsMarkedLines | src/extension.ts:133-142 | without `wallpaper` lines the two-attempt parse gives the strict parse's result |
| Palette.NoThirdAttemptHelps | src/extension.ts:133-142 | when both attempts fail, running the two-attempt parse again on the filtered text also fails |
| Palette.ReadMetadata | src/extension.ts:122-142 | no metadata exactly when `colors.json` does not exist; parsed exactly when it exists, was read, and one of the two parses succeeded |
| Palette.AbortIff | src/extension.ts:147-152 | the run aborts exactly when the palette file cannot be read or one of its tokens is not a colour |
| Palette.WarnIff | src/extension.ts:147-155 | a warning is shown exactly when `colors.json` exists and is unusable or one override fails; without `colors.json` the palette is the token colours |
| Palette.OverridesApplied | src/extension.ts:144-145 | with both overrides, slot 0 is the background, slot 7 the foreground and other token slots are unchanged; a palette shorter than 8 grows to 8 with holes |
| Palette.OverridesInOrder | src/extension.ts:144-145 | a failing background changes nothing; a converting background with a failing foreground leaves slot 0 overwritten and every other slot as read |
| Palette.LoadColors | src/extension.ts:113-155 | the try/catch gives the outcome fixed by the cases above |
| Palette.WriteThemes | src/extension.ts:157-163 | the plain theme is built and written first; the bordered theme is written only after that succeeded; a template call or a write that throws ends the function |
| Palette.GenerateColorThemes | src/extension.ts:113-164 | an abort writes nothing; otherwise both themes come from the same final colours, plain first |
| AutoUpdate.WatcherState.constructor | src/extension.ts:61 | the handle starts as null and no watcher exists |
| AutoUpdate.WatcherState.CreateWatcher | src/extension.ts:170-175 | creating a watcher yields a new handle |
| AutoUpdate.WatcherState.CloseWatcher | src/extension.ts:91-93 | closing a created watcher records it as closed and leaves the handle alone |
| AutoUpdate.WatcherState.Activate | src/extension.ts:71-81 | with auto-update on, exactly one watcher is created and stored, and it is the only live one; otherwise nothing changes |
| AutoUpdate.WatcherState.OnConfigurationChanged | src/extension.ts:84-96 | enabling with a stored watcher creates nothing; enabling without one creates exactly one, which is then the only live watcher and the stored one; disabling closes a stored watcher and clears the handle; disabling without one does nothing |
| AutoUpdate.WatcherState.Deactivate | src/extension.ts:100-107 | a stored watcher is closed but the handle is kept; afterwards no watcher is live |
| AutoUpdate.AtMostOneLive | src/extension.ts:84-107 | at most one watcher is live, and it is the stored one |

## Left out

- File reads, writes and existence checks are inputs: the `CacheFiles` contents and the `pathExists` and `writeSucceeds` parameters. `JSON.stringify` formatting is not modelled.
- `Color(...)`, `JSON.parse` and the theme template are foreign code, modelled as abstract partial functions. Whether the plain and bordered themes agree on their colour keys is therefore not stated. `Color(json?.special?.background)` is a single abstract function of the parsed JSON, so a missing field is just one more input to it.
- `path.join` normalisation, `os.homedir()`, `os.platform()` and `process.env` are inputs. Each of the home directory and an environment value is a single path segment.
- The `\s` class in `split(/\s+/, 16)` is the ECMAScript whitespace and line-terminator set, compared by code point.
- The cache path is not re-resolved at module load. Callers pass in the files found under the resolved directory.
- The chokidar change events, the 10-second startup `setTimeout`, command registration, configuration reads and the message popups are not modelled. The popups are the `Aborted` outcome (error) and the `warned` flag (warning).
- Palette.WriteThemes: does not model a partially written theme file after a failed write.
- AutoUpdate.WatcherState.Activate: requires that no watcher is stored, because the host calls `activate` once, right after module load. A second `activate` would overwrite the handle and leak the first watcher.
