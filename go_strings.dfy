/**
 * The parts of Go's `strings` package that the reader relies on: `Split`
 * with a one-character separator, `TrimRight` with a cutset, and `Join`,
 * which is `Split`'s inverse. A Go string is a sequence of bytes; here each
 * `char` stands for one byte. The separators and the cutset used by the
 * reader are ASCII, so splitting and trimming byte by byte agrees with
 * Go's rune-wise definitions.
 */
module GoStrings {

  /** Number of occurrences of `c` in `s` (Go's `strings.Count` for a one-character substring). */
  function Count(s: string, c: char): (n: nat)
  {
    if s == [] then 0 else (if s[0] == c then 1 else 0) + Count(s[1..], c)
  }

  /**
   * `strings.Split(s, string(sep))`: every occurrence of `sep` ends a token,
   * so two adjacent separators give an empty token and the empty string
   * gives a single empty token.
   */
  function Split(s: string, sep: char): (parts: seq<string>)
    ensures |parts| == Count(s, sep) + 1
    ensures forall i :: 0 <= i < |parts| ==> sep !in parts[i]
  {
    if s == [] then [[]]
    else
      var rest := Split(s[1..], sep);
      if s[0] == sep then [[]] + rest
      else [[s[0]] + rest[0]] + rest[1..]
  }

  /** `strings.Join(parts, string(sep))`. */
  function Join(parts: seq<string>, sep: char): (s: string)
  {
    if |parts| == 0 then []
    else if |parts| == 1 then parts[0]
    else parts[0] + [sep] + Join(parts[1..], sep)
  }

  /**
   * `strings.TrimRight(s, cutset)`: drops trailing characters that occur in
   * `cutset`, and nothing else.
   */
  function TrimRight(s: string, cutset: string): (r: string)
    ensures r <= s
    ensures r == [] || r[|r| - 1] !in cutset
    ensures forall i :: |r| <= i < |s| ==> s[i] in cutset
    decreases |s|
  {
    if s != [] && s[|s| - 1] in cutset then TrimRight(s[..|s| - 1], cutset) else s
  }

  /** A character occurs in a string exactly when its count is positive. */
  lemma {:induction false} CountPositive(s: string, c: char)
    ensures Count(s, c) > 0 <==> c in s
  {
    if s != [] {
      CountPositive(s[1..], c);
      assert s == [s[0]] + s[1..];
    }
  }

  /** Joining what `Split` produced gives back the original string. */
  lemma {:induction false} JoinSplit(s: string, sep: char)
    ensures Join(Split(s, sep), sep) == s
  {
    if s != [] {
      var rest := Split(s[1..], sep);
      JoinSplit(s[1..], sep);
      if s[0] == sep {
        assert ([[]] + rest)[1..] == rest;
      } else if |rest| > 1 {
        var parts := [[s[0]] + rest[0]] + rest[1..];
        assert parts[1..] == rest[1..];
        assert Join(rest, sep) == rest[0] + [sep] + Join(rest[1..], sep);
      }
      assert s == [s[0]] + s[1..];
    }
  }

  /** A separator directly after a separator-free prefix ends the first token. */
  lemma {:induction false} SplitAfterToken(t: string, u: string, sep: char)
    requires sep !in t
    ensures Split(t + [sep] + u, sep) == [t] + Split(u, sep)
  {
    if t == [] {
      assert ([] + [sep] + u)[1..] == u;
    } else {
      assert (t + [sep] + u)[1..] == t[1..] + [sep] + u;
      SplitAfterToken(t[1..], u, sep);
      assert [t[0]] + t[1..] == t;
    }
  }

  /** A string without the separator splits into itself alone. */
  lemma {:induction false} SplitNoSeparator(t: string, sep: char)
    requires sep !in t
    ensures Split(t, sep) == [t]
  {
    if t != [] {
      SplitNoSeparator(t[1..], sep);
      assert [t[0]] + t[1..] == t;
    }
  }

  /** A separator-free prefix followed by a separator or by the end is the first token. */
  lemma SplitHead(x: string, u: string, sep: char)
    requires sep !in x
    requires u == [] || u[0] == sep
    ensures Split(x + u, sep)[0] == x
  {
    if u == [] {
      assert x + u == x;
      SplitNoSeparator(x, sep);
    } else {
      assert x + u == x + [sep] + u[1..];
      SplitAfterToken(x, u[1..], sep);
    }
  }

  /** A character absent from a string is absent from all of its tokens. */
  lemma {:induction false} SplitKeepsAbsent(s: string, sep: char, c: char)
    requires c !in s
    ensures forall i :: 0 <= i < |Split(s, sep)| ==> c !in Split(s, sep)[i]
  {
    if s != [] {
      assert c !in s[1..];
      SplitKeepsAbsent(s[1..], sep, c);
    }
  }

  /**
   * `Split` undoes `Join`: separator-free tokens joined with the separator
   * split back into the same tokens. With `JoinSplit` this makes `Split`
   * the unique separator-free decomposition of a string.
   */
  lemma {:induction false} SplitJoin(parts: seq<string>, sep: char)
    requires |parts| >= 1
    requires forall i :: 0 <= i < |parts| ==> sep !in parts[i]
    ensures Split(Join(parts, sep), sep) == parts
  {
    if |parts| == 1 {
      SplitNoSeparator(parts[0], sep);
    } else {
      SplitJoin(parts[1..], sep);
      SplitAfterToken(parts[0], Join(parts[1..], sep), sep);
      assert [parts[0]] + parts[1..] == parts;
    }
  }

  /** Joining two non-empty token lists puts one separator between their joins. */
  lemma {:induction false} JoinConcat(a: seq<string>, b: seq<string>, sep: char)
    requires |a| >= 1 && |b| >= 1
    ensures Join(a + b, sep) == Join(a, sep) + [sep] + Join(b, sep)
  {
    if |a| > 1 {
      JoinConcat(a[1..], b, sep);
      assert (a + b)[1..] == a[1..] + b;
    } else {
      assert (a + b)[1..] == b;
    }
  }

  /** Splitting at a separator splits the two sides independently. */
  lemma SplitConcat(s: string, t: string, sep: char)
    ensures Split(s + [sep] + t, sep) == Split(s, sep) + Split(t, sep)
  {
    var ps, pt := Split(s, sep), Split(t, sep);
    JoinSplit(s, sep);
    JoinSplit(t, sep);
    JoinConcat(ps, pt, sep);
    SplitJoin(ps + pt, sep);
  }

  /**
   * The first token is the longest separator-free prefix: it is a prefix of
   * the string and is followed by a separator or by the end.
   */
  lemma FirstToken(s: string, sep: char)
    ensures Split(s, sep)[0] <= s
    ensures |Split(s, sep)[0]| == |s| || s[|Split(s, sep)[0]|] == sep
  {
  }

  /**
   * `TrimRight` is characterised by its contract: any prefix that does not
   * end in the cutset and leaves only cutset characters behind is the result.
   */
  lemma TrimRightUnique(s: string, cutset: string, p: string)
    requires p <= s
    requires p == [] || p[|p| - 1] !in cutset
    requires forall i :: |p| <= i < |s| ==> s[i] in cutset
    ensures TrimRight(s, cutset) == p
  {
  }

  /** Trimming twice is the same as trimming once. */
  lemma TrimRightIdempotent(s: string, cutset: string)
    ensures TrimRight(TrimRight(s, cutset), cutset) == TrimRight(s, cutset)
  {
  }

  /** Padding made only of cutset characters does not change the result. */
  lemma TrimRightPadding(s: string, pad: string, cutset: string)
    requires forall i :: 0 <= i < |pad| ==> pad[i] in cutset
    ensures TrimRight(s + pad, cutset) == TrimRight(s, cutset)
  {
    var r := TrimRight(s, cutset);
    var sp := s + pad;
    assert r <= sp;
    forall i | |r| <= i < |sp|
      ensures sp[i] in cutset
    {
      if i >= |s| {
        assert sp[i] == pad[i - |s|];
      }
    }
    TrimRightUnique(sp, cutset, r);
  }
}
