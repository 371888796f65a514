# power_info `linux` package: text handling, modelled in Dafny

The `linux` package of power_info reads small pseudo-files exposed by the
Linux kernel and turns them into strings and records:

- `StringFromFile` reads a whole file and strips trailing spaces and
  newlines (and only those: tabs and carriage returns stay);
- `GetLoadAvg` reads `/proc/loadavg`, splits the line on single spaces,
  splits token 3 on `/`, and builds a five-field `LoadAvg` record by index
  (the last-PID field and anything after it are dropped);
- `GetVersion` reads `/proc/version` and returns it trimmed;
- on a read error both return a zero value (`LoadAvg{}` or `""`) and print
  `WARN: <error>` on standard error unless the package-wide `quiet` flag,
  set by `SetQuiet`, is true.

The model has two modules:

- `GoStrings` (`go_strings.dfy`): Go's `strings.Split` for a one-character
  separator, `strings.TrimRight` with a cutset, and `strings.Join` as the
  inverse of `Split`, with their properties proved: the token count is the
  separator count plus one, no token holds the separator, join and split
  undo each other, and `TrimRight` is the unique prefix that does not end in
  the cutset and leaves only cutset characters behind (hence idempotent and
  blind to trailing padding).
- `Linux` (`linux.dfy`): a file read is an input value, `Contents(data)` or
  `Failed(err)`, standing for what `os.Open` and `ioutil.ReadAll` return;
  `StringFromFile` is a function of it. The load-average parse is the pure
  function `ParseLoadAvg`, whose contract says the record is the one
  separator-free record laid out as `"A B C D/E"` at the start of the line,
  followed by nothing, a space or a `/`; `ParseLoadAvgOfLayout` proves the
  converse. The unchecked indexing of the Go code (`values[3]`,
  `sAndE[1]`) panics on malformed input; the model makes the condition
  under which it does not, `IsLoadAvgLine` (at least four space-separated
  tokens and a `/` in token 3), a precondition. The package-level `quiet`
  flag is the field of class `Package`; `SetQuiet` overwrites it and
  `GetLoadAvg`/`GetVersion` read it. The warning line written to standard
  error is returned beside the value.

A Go string is a sequence of bytes; here each `char` stands for one byte.
The separators (`' '`, `'/'`) and the cutset (`" \n"`) are ASCII, and Go's
`TrimRight` takes a byte-wise path for an ASCII cutset, so the byte-wise
model agrees with Go on every input, valid UTF-8 or not.

## Model

| member | source | states |
|---|---|---|
| `GoStrings.Split` | linux/linux.go:38 | `strings.Split` on one separator character: the number of tokens is the number of separators plus one (so the empty string gives one empty token and adjacent separators give empty tokens), and no token contains the separator |
| `GoStrings.JoinSplit` | linux/linux.go:38 | joining the tokens of a split with the separator gives back the original line |
| `GoStrings.SplitJoin` | linux/linux.go:38-39 | splitting a join of separator-free tokens gives back those tokens, so the split is the unique separator-free decomposition |
| `GoStrings.JoinConcat` | linux/linux.go:38 | joining two non-empty token lists equals joining each and putting one separator between them |
| `GoStrings.SplitConcat` | linux/linux.go:38 | splitting at a separator splits the two sides independently and concatenates the token lists |
| `GoStrings.SplitAfterToken` | linux/linux.go:38 | a separator-free prefix followed by the separator is the first token, and the rest splits on its own |
| `GoStrings.SplitNoSeparator` | linux/linux.go:39 | a string without the separator splits into itself alone |
| `GoStrings.FirstToken` | linux/linux.go:38 | the first token is a prefix of the string followed by the separator or by the end |
| `GoStrings.CountPositive` | linux/linux.go:39 | a '/' occurs in token 3 exactly when its count is positive, i.e. exactly when the split yields a second sub-token |
| `GoStrings.TrimRight` | linux/linux.go:86 | the result is a prefix of the input, does not end in a cutset character, and everything removed is a cutset character |
| `GoStrings.TrimRightUnique` | linux/linux.go:86 | any prefix with those three properties is the result: the contract determines the trim |
| `GoStrings.TrimRightIdempotent` | linux/linux.go:86 | trimming twice equals trimming once |
| `GoStrings.TrimRightPadding` | linux/linux.go:86 | appending cutset characters does not change the trimmed result |
| `Linux.StringFromFile` | linux/linux.go:77-87 | on an open or read error: empty string and that error; otherwise no error and the content with trailing `' '`/`'\n'` removed (prefix of the content, not ending in either, removed part only those two) |
| `Linux.TrimKeepsOtherWhitespace` | linux/linux.go:86 | a trailing tab, or a carriage return before the final newline, is kept |
| `Linux.StringFromFilePadded` | linux/linux.go:86 | content followed by any run of spaces and newlines reads as the content alone, and re-trimming a read string changes nothing |
| `Linux.ParseLoadAvg` | linux/linux.go:38-46 | for a line with at least four space tokens and a '/' in token 3: the record's fields hold no space (the counts also no '/'), and the line starts with `"A B C D/E"` followed by the end, a space or a '/' |
| `Linux.ParseLoadAvgOfLayout` | linux/linux.go:38-46 | conversely, any line `"A B C D/E"` plus a tail starting with a space (extra tokens such as the last PID) or with '/' (extra sub-tokens of token 3) is parseable and parses to exactly (A, B, C, D, E) |
| `Linux.ParseIgnoresExtraTokens` | linux/linux.go:38-46 | appending further space-separated tokens keeps the line parseable and leaves the record unchanged |
| `Linux.EmptyLineMalformed` | linux/linux.go:39 | an empty file yields a single empty token, so the indexing panics |
| `Linux.FewTokensMalformed` | linux/linux.go:39 | a line with fewer than three spaces has fewer than four tokens, so the indexing panics |
| `Linux.FourTokens` | linux/linux.go:38 | `a b c d` followed by nothing or a further token splits with `a`, `b`, `c`, `d` as its first four tokens |
| `Linux.DoubledSpaceMalformed` | linux/linux.go:38-39 | a doubled space shifts the tokens so token 3 is a load average without '/', and the indexing panics |
| `Linux.NoSlashMalformed` | linux/linux.go:39-45 | a token 3 without '/' has no second sub-token, and the indexing panics |
| `Linux.Package.constructor` | linux/linux.go:15 | `quiet` starts false, Go's zero value |
| `Linux.Package.SetQuiet` | linux/linux.go:19-21 | afterwards `quiet` equals the argument |
| `Linux.Package.GetLoadAvg` | linux/linux.go:30-47 | through `Package.Warn`, a warning `WARN: <error>\n` is produced exactly when the read failed and `quiet` is false; on a read error the record has all five fields empty; otherwise it is the parse of the trimmed content, separator-free and laid out at the start of the content |
| `Linux.Package.GetVersion` | linux/linux.go:50-59 | through `Package.Warn`, the same warning exactly when the read failed and `quiet` is false; `""` on a read error; otherwise the trimmed content unchanged |
| `Linux.GetLoadAvgOfLayout` | linux/linux.go:30-46 | content `"A B C D/E"` (separator-free fields) plus a tail that is empty or starts with a space or `/`, the line not ending in a space or newline, then any run of spaces/newlines, reads as `LoadAvg{A, B, C, D, E}` with no warning |
| `Linux.GetLoadAvgExample` | linux/linux.go:30-46 | `"0.50 0.40 0.30 2/150 12345\n"` reads as `{"0.50", "0.40", "0.30", "2", "150"}` with no warning |
| `Linux.VersionErrorLooksBlank` | linux/linux.go:51-58 | a failed read and a blank file give the same version string, `""` |

## Left out

- File access: `os.Open` and `ioutil.ReadAll` (linux/linux.go:78-85) are replaced by the input `FileRead`; an open error and a read error are both `Failed` since the code treats them alike. `StringFromFile` never closes the opened file (there is no `fh.Close()` at linux/linux.go:78-86), so each call leaks one descriptor; descriptors are not modelled. The path variables `PowerSupplyPath`, `LoadAvgPath`, `VersionPath` (linux/linux.go:12-14) only name the files read and are not modelled.
- The write to standard error: only its content and the decision to write it are modelled, as the returned `warning`.
- `IsFile` (linux/linux.go:90-95): a filesystem stat with no text logic. It ignores the stat error and calls `Mode()` on the returned value, which is nil when the path does not exist, so a missing path panics rather than yielding false.
- The `Info` struct (linux/linux.go:68-74): a carrier for JSON serialisation with no logic of its own.
- Concurrent access to the unsynchronised `quiet` variable: the model is single-threaded.
- The panic on a malformed load-average line is not modelled as behaviour; `ParseLoadAvg` and `Package.GetLoadAvg` require `IsLoadAvgLine`, and the lemmas ending in `Malformed` exhibit lines that violate it.
- `GoStrings.Split`: only a one-character separator is modelled, the only kind the package uses; Go's multi-character and empty separators are not.
- `GoStrings.TrimRight`: the cutset is matched character by character (byte by byte), which is Go's behaviour for an ASCII cutset such as `" \n"`; Go's rune-wise matching for non-ASCII cutsets is not modelled.
