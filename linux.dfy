/**
 * The text handling of the `linux` package: reading a pseudo-file as a
 * right-trimmed string, parsing the `/proc/loadavg` line into a `LoadAvg`
 * record, reading the kernel version, and the package-wide `quiet` flag
 * that decides whether a read error is reported on standard error.
 *
 * File access is not modelled: a read is given as a `FileRead` value, the
 * file's bytes or the error that opening or reading it produced. The
 * warning line written to standard error is returned as a value instead.
 */
module Linux {
  import opened GoStrings

  datatype Option<T> = None | Some(value: T)

  /** The outcome of `os.Open` followed by `ioutil.ReadAll`: the bytes read, or the error of either step. */
  datatype FileRead = Contents(data: string) | Failed(err: string)

  /** Go's `(string, error)` pair as returned by `StringFromFile`. */
  datatype StringResult = StringResult(str: string, err: Option<string>)

  /** A value together with the line written to standard error while computing it, if any. */
  datatype Reported<T> = Reported(value: T, warning: Option<string>)

  /** The cutset `StringFromFile` trims: space and newline, nothing else. */
  const TrimmedChars: string := " \n"

  /**
   * `StringFromFile`: on an open or read error, the empty string and that
   * error; otherwise the content with trailing spaces and newlines removed.
   */
  function StringFromFile(read: FileRead): (r: StringResult)
    ensures read.Failed? ==> r.str == [] && r.err == Some(read.err)
    ensures read.Contents? ==> r.err == None && r.str <= read.data
    ensures read.Contents? && r.str != [] ==> r.str[|r.str| - 1] != ' ' && r.str[|r.str| - 1] != '\n'
    ensures read.Contents? ==>
      forall i :: |r.str| <= i < |read.data| ==> read.data[i] == ' ' || read.data[i] == '\n'
  {
    match read
    case Failed(e) => StringResult([], Some(e))
    case Contents(b) => StringResult(TrimRight(b, TrimmedChars), None)
  }

  /** `LoadAvg`: the first four fields of `/proc/loadavg`, the fourth split in two; the last-PID field is dropped. */
  datatype LoadAvg = LoadAvg(avg1: string, avg5: string, avg15: string, schedulers: string, entities: string)

  /** The text `"A B C D/E"` that a record's five fields occupy at the start of a load-average line. */
  function Layout(r: LoadAvg): (s: string)
  {
    r.avg1 + " " + r.avg5 + " " + r.avg15 + " " + r.schedulers + "/" + r.entities
  }

  /** The fields as splitting leaves them: no space in any field, no '/' in the two counts. */
  predicate SeparatorFree(r: LoadAvg)
  {
    && ' ' !in r.avg1 && ' ' !in r.avg5 && ' ' !in r.avg15
    && ' ' !in r.schedulers && '/' !in r.schedulers
    && ' ' !in r.entities && '/' !in r.entities
  }

  /**
   * What may follow the five fields on a line: nothing, further
   * space-separated tokens, or further '/'-separated parts of token 3.
   */
  predicate IsTail(tail: string)
  {
    tail == [] || tail[0] == ' ' || tail[0] == '/'
  }

  /**
   * The lines on which the indexing in `GetLoadAvg` stays in bounds: at
   * least four space-separated tokens, and a '/' in token 3. On any other
   * line the Go code panics with an index out of range.
   */
  predicate IsLoadAvgLine(line: string)
  {
    var values := Split(line, ' ');
    |values| >= 4 && '/' in values[3]
  }

  /**
   * The split-and-index parse of `GetLoadAvg`. Its result is the one
   * separator-free record whose layout starts the line and is followed by
   * a separator or by the end of the line.
   */
  function ParseLoadAvg(line: string): (r: LoadAvg)
    requires IsLoadAvgLine(line)
    ensures SeparatorFree(r)
    ensures Layout(r) <= line && IsTail(line[|Layout(r)|..])
  {
    var values := Split(line, ' ');
    CountPositive(values[3], '/');
    var sAndE := Split(values[3], '/');
    SplitKeepsAbsent(values[3], '/', ' ');
    var r := LoadAvg(values[0], values[1], values[2], sAndE[0], sAndE[1]);
    TokensLayout(line, values, sAndE);
    r
  }

  /** What follows the first token in `Join(parts)`: nothing, or the separator and the other tokens. */
  function JoinRest(parts: seq<string>, sep: char): (t: string)
    ensures t == [] || t[0] == sep
  {
    if |parts| <= 1 then [] else [sep] + Join(parts[1..], sep)
  }

  lemma JoinHeadRest(parts: seq<string>, sep: char)
    requires |parts| >= 1
    ensures Join(parts, sep) == parts[0] + JoinRest(parts, sep)
  {
  }

  /** A line with at least four tokens is its first three tokens followed by the rest, joined. */
  lemma JoinFirstThree(line: string, values: seq<string>)
    requires values == Split(line, ' ') && |values| >= 4
    ensures line == values[0] + " " + (values[1] + " " + (values[2] + " " + Join(values[3..], ' ')))
  {
    JoinSplit(line, ' ');
    var v1, v2, v3 := values[1..], values[2..], values[3..];
    assert v1[1..] == v2 && v2[1..] == v3;
    assert Join(v2, ' ') == values[2] + " " + Join(v3, ' ');
    assert Join(v1, ' ') == values[1] + " " + Join(v2, ' ');
  }

  /** Regrouping the pieces of a line around the layout of its five fields. */
  lemma LayoutRegroup(a: string, b: string, c: string, d: string, e: string, t1: string, t2: string)
    ensures a + " " + (b + " " + (c + " " + ((d + "/" + (e + t1)) + t2)))
         == Layout(LoadAvg(a, b, c, d, e)) + (t1 + t2)
  {
  }

  /** The layout of the indexed tokens starts the line and is followed by a separator or the end. */
  lemma TokensLayout(line: string, values: seq<string>, sAndE: seq<string>)
    requires values == Split(line, ' ') && |values| >= 4
    requires sAndE == Split(values[3], '/') && |sAndE| >= 2
    ensures var r := LoadAvg(values[0], values[1], values[2], sAndE[0], sAndE[1]);
      Layout(r) <= line && IsTail(line[|Layout(r)|..])
  {
    var v3, w1 := values[3..], sAndE[1..];
    JoinFirstThree(line, values);
    JoinHeadRest(v3, ' ');
    JoinSplit(values[3], '/');
    JoinHeadRest(w1, '/');
    assert values[3] == sAndE[0] + "/" + (sAndE[1] + JoinRest(w1, '/'));
    var t1, t2 := JoinRest(w1, '/'), JoinRest(v3, ' ');
    LayoutRegroup(values[0], values[1], values[2], sAndE[0], sAndE[1], t1, t2);
    var r := LoadAvg(values[0], values[1], values[2], sAndE[0], sAndE[1]);
    assert line == Layout(r) + (t1 + t2);
    assert line[|Layout(r)|..] == t1 + t2;
  }

  /** The layout followed by a tail, grouped token by token. */
  lemma LayoutTokens(f: LoadAvg, more: string, rest: string)
    ensures Layout(f) + (more + rest)
         == f.avg1 + [' '] + (f.avg5 + [' '] + (f.avg15 + [' '] + ((f.schedulers + ['/'] + (f.entities + more)) + rest)))
  {
  }

  /**
   * The converse of `ParseLoadAvg`'s contract: a line made of five
   * separator-free fields laid out as `"A B C D/E"` and followed by a
   * separator or nothing can be parsed, and parses to exactly those fields.
   * A tail starting with ' ' holds further tokens (such as the last PID),
   * one starting with '/' further parts of token 3; both are dropped.
   */
  lemma ParseLoadAvgOfLayout(f: LoadAvg, tail: string)
    requires SeparatorFree(f) && IsTail(tail)
    ensures IsLoadAvgLine(Layout(f) + tail)
    ensures ParseLoadAvg(Layout(f) + tail) == f
  {
    // token 3 runs up to the first space of the tail
    FirstToken(tail, ' ');
    var more := Split(tail, ' ')[0];
    var rest := tail[|more|..];
    assert tail == more + rest;
    var t3 := f.schedulers + ['/'] + (f.entities + more);
    var x := t3 + rest;
    var x2 := f.avg15 + [' '] + x;
    var x1 := f.avg5 + [' '] + x2;
    LayoutTokens(f, more, rest);
    var line := Layout(f) + tail;
    assert line == f.avg1 + [' '] + x1;
    SplitAfterToken(f.avg1, x1, ' ');
    SplitAfterToken(f.avg5, x2, ' ');
    SplitAfterToken(f.avg15, x, ' ');
    SplitHead(t3, rest, ' ');
    var values := Split(line, ' ');
    assert values[3] == t3;
    // within token 3, the counts are the first two '/'-parts
    SplitAfterToken(f.schedulers, f.entities + more, '/');
    SplitHead(f.entities, more, '/');
    assert t3[|f.schedulers|] == '/';
  }

  /** An empty file holds one empty token: the Go code panics on it. */
  lemma EmptyLineMalformed()
    ensures !IsLoadAvgLine("")
  {
  }

  /** Fewer than three spaces means fewer than four tokens: the Go code panics. */
  lemma FewTokensMalformed(line: string)
    requires Count(line, ' ') < 3
    ensures !IsLoadAvgLine(line)
  {
  }

  /** Regrouping `a b c d` and the rest of a line token by token. */
  lemma FourTokensRegroup(a: string, b: string, c: string, d: string, rest: string)
    ensures a + " " + b + " " + c + " " + d + rest == a + [' '] + (b + [' '] + (c + [' '] + (d + rest)))
  {
  }

  /**
   * Four tokens followed by the rest of a line: `a b c d` where no token
   * holds a space and `rest` is empty or starts a further token.
   */
  lemma FourTokens(a: string, b: string, c: string, d: string, rest: string)
    requires ' ' !in a && ' ' !in b && ' ' !in c && ' ' !in d
    requires rest == [] || rest[0] == ' '
    ensures var values := Split(a + " " + b + " " + c + " " + d + rest, ' ');
      |values| >= 4 && values[..4] == [a, b, c, d]
  {
    var x3 := d + rest;
    var x2 := c + [' '] + x3;
    var x1 := b + [' '] + x2;
    FourTokensRegroup(a, b, c, d, rest);
    SplitAfterToken(a, x1, ' ');
    SplitAfterToken(b, x2, ' ');
    SplitAfterToken(c, x3, ' ');
    SplitHead(d, rest, ' ');
    var values := Split(a + [' '] + x1, ' ');
    assert values == [a] + ([b] + ([c] + Split(x3, ' ')));
  }

  /**
   * A doubled space adds an empty token and shifts the rest, so token 3 is
   * the third load average, which holds no '/': the Go code panics.
   */
  lemma DoubledSpaceMalformed(a: string, b: string, c: string, rest: string)
    requires ' ' !in a && ' ' !in b && ' ' !in c && '/' !in c
    requires rest == [] || rest[0] == ' '
    ensures !IsLoadAvgLine(a + "  " + b + " " + c + rest)
  {
    FourTokens(a, "", b, c, rest);
    assert a + " " + "" + " " + b + " " + c + rest == a + "  " + b + " " + c + rest;
  }

  /** A token 3 without '/' has no second sub-token: the Go code panics. */
  lemma NoSlashMalformed(a: string, b: string, c: string, d: string, rest: string)
    requires ' ' !in a && ' ' !in b && ' ' !in c && ' ' !in d && '/' !in d
    requires rest == [] || rest[0] == ' '
    ensures !IsLoadAvgLine(a + " " + b + " " + c + " " + d + rest)
  {
    FourTokens(a, b, c, d, rest);
    var values := Split(a + " " + b + " " + c + " " + d + rest, ' ');
    assert values[3] == values[..4][3];
  }

  /** Tokens after the fourth never change the result. */
  lemma ParseIgnoresExtraTokens(line: string, extra: string)
    requires IsLoadAvgLine(line)
    ensures IsLoadAvgLine(line + " " + extra)
    ensures ParseLoadAvg(line + " " + extra) == ParseLoadAvg(line)
  {
    SplitConcat(line, extra, ' ');
    assert line + " " + extra == line + [' '] + extra;
    var values := Split(line, ' ');
    assert Split(line + " " + extra, ' ')[3] == values[3];
  }

  /**
   * The package-level state: the `quiet` flag that `SetQuiet` overwrites
   * and `GetLoadAvg` and `GetVersion` consult on a read error.
   */
  class Package {
    var quiet: bool

    /** At program start `quiet` has Go's zero value, false. */
    constructor ()
      ensures !quiet
    {
      quiet := false;
    }

    method SetQuiet(state: bool)
      modifies this
      ensures quiet == state
    {
      quiet := state;
    }

    /** The `WARN: <error>` line written on a read error, unless quiet. */
    function Warn(err: string): Option<string>
      reads this
    {
      if quiet then None else Some("WARN: " + err + "\n")
    }

    /**
     * `GetLoadAvg`: a read error gives the all-empty record (and a warning
     * unless quiet); otherwise the trimmed content is parsed.
     */
    function GetLoadAvg(read: FileRead): (r: Reported<LoadAvg>)
      reads this
      requires read.Contents? ==> IsLoadAvgLine(TrimRight(read.data, TrimmedChars))
      ensures r.warning.Some? <==> read.Failed? && !quiet
      ensures r.warning.Some? ==> r.warning.value == "WARN: " + read.err + "\n"
      ensures read.Failed? ==> r.value == LoadAvg("", "", "", "", "")
      ensures read.Contents? ==> r.value == ParseLoadAvg(StringFromFile(read).str)
      ensures read.Contents? ==> SeparatorFree(r.value) && Layout(r.value) <= read.data
    {
      var s := StringFromFile(read);
      if s.err.Some? then
        Reported(LoadAvg("", "", "", "", ""), Warn(s.err.value))
      else
        Reported(ParseLoadAvg(s.str), None)
    }

    /**
     * `GetVersion`: a read error gives "" (and a warning unless quiet);
     * otherwise the trimmed content, unchanged.
     */
    function GetVersion(read: FileRead): (r: Reported<string>)
      reads this
      ensures r.warning.Some? <==> read.Failed? && !quiet
      ensures r.warning.Some? ==> r.warning.value == "WARN: " + read.err + "\n"
      ensures read.Failed? ==> r.value == []
      ensures read.Contents? ==> r.value == StringFromFile(read).str
    {
      var s := StringFromFile(read);
      if s.err.Some? then Reported([], Warn(s.err.value)) else Reported(s.str, None)
    }
  }

  /** Only spaces and newlines are trimmed: a trailing tab or carriage return stays. */
  lemma TrimKeepsOtherWhitespace(s: string)
    ensures StringFromFile(Contents(s + "\t")).str == s + "\t"
    ensures StringFromFile(Contents(s + "\r\n")).str == s + "\r"
  {
    TrimRightUnique(s + "\t", TrimmedChars, s + "\t");
    TrimRightUnique(s + "\r\n", TrimmedChars, s + "\r");
  }

  /** Content followed by any run of spaces and newlines reads as the content alone, and re-trimming changes nothing. */
  lemma StringFromFilePadded(s: string, pad: string)
    requires forall i :: 0 <= i < |pad| ==> pad[i] == ' ' || pad[i] == '\n'
    ensures StringFromFile(Contents(s + pad)).str == StringFromFile(Contents(s)).str
    ensures var t := StringFromFile(Contents(s)).str; StringFromFile(Contents(t)).str == t
  {
    TrimRightPadding(s, pad, TrimmedChars);
    TrimRightIdempotent(s, TrimmedChars);
  }

  /**
   * A file holding `"A B C D/E"` (plus further tokens, further '/'-parts
   * and trailing spaces or newlines) reads as the record (A, B, C, D, E)
   * with no warning.
   */
  lemma GetLoadAvgOfLayout(p: Package, f: LoadAvg, tail: string, pad: string)
    requires SeparatorFree(f) && IsTail(tail)
    requires var line := Layout(f) + tail; line[|line| - 1] != ' ' && line[|line| - 1] != '\n'
    requires forall i :: 0 <= i < |pad| ==> pad[i] == ' ' || pad[i] == '\n'
    ensures var read := Contents(Layout(f) + tail + pad);
      IsLoadAvgLine(TrimRight(read.data, TrimmedChars)) && p.GetLoadAvg(read) == Reported(f, None)
  {
    var line := Layout(f) + tail;
    TrimRightPadding(line, pad, TrimmedChars);
    TrimRightUnique(line, TrimmedChars, line);
    ParseLoadAvgOfLayout(f, tail);
  }

  /** A typical `/proc/loadavg` line, with its trailing newline. */
  lemma GetLoadAvgExample(p: Package)
    ensures var read := Contents("0.50 0.40 0.30 2/150 12345\n");
      IsLoadAvgLine(TrimRight(read.data, TrimmedChars))
      && p.GetLoadAvg(read) == Reported(LoadAvg("0.50", "0.40", "0.30", "2", "150"), None)
  {
    var f := LoadAvg("0.50", "0.40", "0.30", "2", "150");
    assert Layout(f) + " 12345" + "\n" == "0.50 0.40 0.30 2/150 12345\n";
    GetLoadAvgOfLayout(p, f, " 12345", "\n");
  }

  /**
   * A missing file and a blank one give callers the same version string:
   * only the warning, and only when not quiet, tells them apart.
   */
  lemma VersionErrorLooksBlank(p: Package, err: string, blank: string)
    requires forall i :: 0 <= i < |blank| ==> blank[i] == ' ' || blank[i] == '\n'
    ensures p.GetVersion(Failed(err)).value == p.GetVersion(Contents(blank)).value == []
  {
  }
}
