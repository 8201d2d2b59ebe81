/** The field splitter of the log parser: `regexp.MustCompile("\\s+")` used as
    `pattern.Split(line, -1)` (main.go:97, 110, 138).

    Go's `Split` with a negative count cuts the line at every maximal run of
    whitespace. It keeps the pieces before the first run and after the last one
    even when they are empty, so a line that starts with whitespace yields an
    empty first token and a line that ends with whitespace an empty last token;
    the empty line yields one empty token. */
module Tokens {

  /** Membership in RE2's `\s` class: space, tab, newline, form feed, carriage return. */
  predicate IsSpace(c: char) {
    c == ' ' || c == '\t' || c == '\n' || c == '\U{C}' || c == '\r'
  }

  /** `s` holds no whitespace character. */
  predicate NoSpace(s: string) {
    forall i :: 0 <= i < |s| ==> !IsSpace(s[i])
  }

  /** `s` holds only whitespace characters. */
  predicate AllSpace(s: string) {
    forall i :: 0 <= i < |s| ==> IsSpace(s[i])
  }

  /** Length of the longest prefix of `s` without whitespace. */
  function WordEnd(s: string): (n: nat)
    ensures n <= |s|
  {
    if |s| == 0 || IsSpace(s[0]) then 0 else 1 + WordEnd(s[1..])
  }

  /** Length of the longest prefix of `s` made of whitespace. */
  function SpaceEnd(s: string): (n: nat)
    ensures n <= |s|
  {
    if |s| == 0 || !IsSpace(s[0]) then 0 else 1 + SpaceEnd(s[1..])
  }

  /** `WordEnd` stops at the first whitespace character. */
  lemma {:induction false} WordEndSpec(s: string)
    ensures NoSpace(s[..WordEnd(s)])
    ensures WordEnd(s) < |s| ==> IsSpace(s[WordEnd(s)])
    decreases |s|
  {
    if |s| > 0 && !IsSpace(s[0]) {
      WordEndSpec(s[1..]);
      assert s[..WordEnd(s)] == [s[0]] + s[1..][..WordEnd(s[1..])];
    }
  }

  /** `SpaceEnd` stops at the first character that is not whitespace. */
  lemma {:induction false} SpaceEndSpec(s: string)
    ensures AllSpace(s[..SpaceEnd(s)])
    ensures SpaceEnd(s) < |s| ==> !IsSpace(s[SpaceEnd(s)])
    decreases |s|
  {
    if |s| > 0 && IsSpace(s[0]) {
      SpaceEndSpec(s[1..]);
      assert s[..SpaceEnd(s)] == [s[0]] + s[1..][..SpaceEnd(s[1..])];
    }
  }

  /** `pattern.Split(s, -1)`: the pieces of `s` between maximal whitespace runs. */
  function Split(s: string): (r: seq<string>)
    decreases |s|
  {
    var i := WordEnd(s);
    if i == |s| then [s]
    else
      var j := i + SpaceEnd(s[i..]);
      [s[..i]] + Split(s[j..])
  }

  /** The whitespace runs that `Split` cuts at, in order. */
  function Separators(s: string): seq<string>
    decreases |s|
  {
    var i := WordEnd(s);
    if i == |s| then []
    else
      var j := i + SpaceEnd(s[i..]);
      [s[i..j]] + Separators(s[j..])
  }

  /** Tokens and separators written back one after the other. */
  function Interleave(tokens: seq<string>, seps: seq<string>): string
    requires |tokens| == |seps| + 1
    decreases |seps|
  {
    if |seps| == 0 then tokens[0]
    else tokens[0] + seps[0] + Interleave(tokens[1..], seps[1..])
  }

  /** What a split of `s` at maximal whitespace runs is: tokens without
      whitespace, separated by non-empty whitespace runs, with every token
      between two runs non-empty, that together spell `s` again. */
  ghost predicate IsSplitOf(s: string, tokens: seq<string>, seps: seq<string>) {
    && |tokens| == |seps| + 1
    && (forall k :: 0 <= k < |tokens| ==> NoSpace(tokens[k]))
    && (forall k :: 0 <= k < |seps| ==> |seps[k]| > 0 && AllSpace(seps[k]))
    && (forall k :: 0 < k < |tokens| - 1 ==> |tokens[k]| > 0)
    && Interleave(tokens, seps) == s
  }

  /** One step of `Split` and `Separators` on a line that contains whitespace. */
  lemma SplitStep(s: string, i: nat, j: nat)
    requires i == WordEnd(s) < |s| && j == i + SpaceEnd(s[i..])
    ensures i < j <= |s|
    ensures Split(s) == [s[..i]] + Split(s[j..])
    ensures Separators(s) == [s[i..j]] + Separators(s[j..])
    ensures NoSpace(s[..i]) && AllSpace(s[i..j])
    ensures s[j..] == "" || !IsSpace(s[j])
  {
    RunBounds(s, i, j);
    SplitUnfold(s, i, j);
    SeparatorsUnfold(s, i, j);
  }

  /** One step of `Split` past the first token and the run after it. */
  lemma SplitUnfold(s: string, i: nat, j: nat)
    requires i == WordEnd(s) < |s| && j == i + SpaceEnd(s[i..])
    ensures Split(s) == [s[..i]] + Split(s[j..])
  {
  }

  /** One step of `Separators` past the first token and the run after it. */
  lemma SeparatorsUnfold(s: string, i: nat, j: nat)
    requires i == WordEnd(s) < |s| && j == i + SpaceEnd(s[i..])
    ensures Separators(s) == [s[i..j]] + Separators(s[j..])
  {
  }

  /** The first token has no whitespace, the run after it is all whitespace
      and is non-empty, and the rest does not start with whitespace. */
  lemma RunBounds(s: string, i: nat, j: nat)
    requires i == WordEnd(s) < |s| && j == i + SpaceEnd(s[i..])
    ensures i < j <= |s|
    ensures NoSpace(s[..i]) && AllSpace(s[i..j])
    ensures s[j..] == "" || !IsSpace(s[j])
  {
    var u := s[i..];
    var n := SpaceEnd(u);
    WordEndSpec(s);
    SpaceEndSpec(u);
    assert s[i..j] == u[..n];
    assert j < |s| ==> s[j] == u[n];
  }

  /** Putting a token and a separator in front of a decomposition whose first
      token is non-empty (or which is a single token) decomposes the longer line. */
  lemma SplitOfCons(s: string, i: nat, j: nat, tokens: seq<string>, seps: seq<string>)
    requires i < j <= |s|
    requires IsSplitOf(s[j..], tokens, seps)
    requires NoSpace(s[..i]) && AllSpace(s[i..j])
    requires |tokens| >= 2 ==> |tokens[0]| > 0
    ensures IsSplitOf(s, [s[..i]] + tokens, [s[i..j]] + seps)
  {
    var tt, ts := [s[..i]] + tokens, [s[i..j]] + seps;
    assert tt[1..] == tokens && ts[1..] == seps;
    assert s[..i] + s[i..j] + s[j..] == s;
    forall k | 0 <= k < |tt|
      ensures NoSpace(tt[k])
    {
      if k > 0 {
        assert tt[k] == tokens[k - 1];
      }
    }
    forall k | 0 <= k < |ts|
      ensures |ts[k]| > 0 && AllSpace(ts[k])
    {
      if k > 0 {
        assert ts[k] == seps[k - 1];
      }
    }
    forall k | 0 < k < |tt| - 1
      ensures |tt[k]| > 0
    {
      assert tt[k] == tokens[k - 1];
    }
  }

  /** `Split` and `Separators` decompose every line; written back they give the line. */
  lemma {:induction false} SplitSound(s: string)
    ensures IsSplitOf(s, Split(s), Separators(s))
    decreases |s|
  {
    var i := WordEnd(s);
    if i == |s| {
      assert Split(s) == [s] && Separators(s) == [];
      WordEndSpec(s);
      assert s[..i] == s;
    } else {
      var j := i + SpaceEnd(s[i..]);
      SplitStep(s, i, j);
      var rest := s[j..];
      SplitSound(rest);
      if |Split(rest)| >= 2 {
        assert WordEnd(rest) < |rest|;
        assert WordEnd(rest) > 0;
      }
      SplitOfCons(s, i, j, Split(rest), Separators(rest));
    }
  }

  /** A token followed by whitespace ends where the token ends. */
  lemma {:induction false} WordEndAt(t: string, rest: string)
    requires NoSpace(t) && rest != "" && IsSpace(rest[0])
    ensures WordEnd(t + rest) == |t|
    decreases |t|
  {
    if t != "" {
      assert (t + rest)[1..] == t[1..] + rest;
      WordEndAt(t[1..], rest);
    }
  }

  /** A whitespace run followed by a non-space ends where the run ends. */
  lemma {:induction false} SpaceEndAt(sep: string, rest: string)
    requires AllSpace(sep) && (rest == "" || !IsSpace(rest[0]))
    ensures SpaceEnd(sep + rest) == |sep|
    decreases |sep|
  {
    if sep != "" {
      assert (sep + rest)[1..] == sep[1..] + rest;
      SpaceEndAt(sep[1..], rest);
    }
  }

  /** The first token and separator of a decomposition of `s` are where
      `WordEnd` and `SpaceEnd` put them, and the rest is decomposed by the
      remaining tokens and separators. */
  lemma SplitOfHead(s: string, tokens: seq<string>, seps: seq<string>) returns (i: nat, j: nat)
    requires IsSplitOf(s, tokens, seps) && |seps| > 0
    ensures i == WordEnd(s) < |s| && j == i + SpaceEnd(s[i..])
    ensures s[..i] == tokens[0] && s[i..j] == seps[0]
    ensures IsSplitOf(s[j..], tokens[1..], seps[1..])
  {
    var t0, sep := tokens[0], seps[0];
    var rest := Interleave(tokens[1..], seps[1..]);
    var tt, ts := tokens[1..], seps[1..];
    assert s == t0 + sep + rest;
    assert NoSpace(tokens[1]);
    if |tokens| > 2 {
      assert |tokens[1]| > 0;
      assert rest == tokens[1] + seps[1] + Interleave(tt[1..], ts[1..]);
      assert rest[0] == tokens[1][0];
    } else {
      assert rest == tokens[1];
    }
    WordEndAt(t0, sep + rest);
    assert s == t0 + (sep + rest);
    i := |t0|;
    assert s[i..] == sep + rest;
    SpaceEndAt(sep, rest);
    j := i + |sep|;
    assert s[j..] == rest;
    assert s[i..j] == sep;
    forall k | 0 < k < |tt| - 1
      ensures |tt[k]| > 0
    {
      assert tt[k] == tokens[k + 1];
    }
    forall k | 0 <= k < |tt|
      ensures NoSpace(tt[k])
    {
      assert tt[k] == tokens[k + 1];
    }
    forall k | 0 <= k < |ts|
      ensures |ts[k]| > 0 && AllSpace(ts[k])
    {
      assert ts[k] == seps[k + 1];
    }
  }

  /** The decomposition is unique: any tokens and separators with the
      properties of `IsSplitOf` are the ones `Split` and `Separators` produce. */
  lemma {:induction false} SplitUnique(s: string, tokens: seq<string>, seps: seq<string>)
    requires IsSplitOf(s, tokens, seps)
    ensures tokens == Split(s) && seps == Separators(s)
    decreases |seps|
  {
    if |seps| == 0 {
      assert s == tokens[0];
      WordEndSpec(s);
    } else {
      var i, j := SplitOfHead(s, tokens, seps);
      SplitUnique(s[j..], tokens[1..], seps[1..]);
      SplitUnfold(s, i, j);
      SeparatorsUnfold(s, i, j);
      HeadTail(tokens, s[..i], Split(s[j..]));
      HeadTail(seps, s[i..j], Separators(s[j..]));
    }
  }

  /** A non-empty sequence is its head followed by its tail. */
  lemma HeadTail<T>(xs: seq<T>, x: T, ys: seq<T>)
    requires |xs| > 0 && xs[0] == x && xs[1..] == ys
    ensures xs == [x] + ys
  {
  }

  /** Interleaving distributes over a join at one separator. */
  lemma {:induction false} InterleaveConcat(t1: seq<string>, s1: seq<string>, w: string, t2: seq<string>, s2: seq<string>)
    requires |t1| == |s1| + 1 && |t2| == |s2| + 1
    ensures Interleave(t1 + t2, s1 + [w] + s2) == Interleave(t1, s1) + w + Interleave(t2, s2)
    decreases |s1|
  {
    if |s1| == 0 {
      assert (t1 + t2)[1..] == t2;
      assert (s1 + [w] + s2)[1..] == s2;
    } else {
      InterleaveConcat(t1[1..], s1[1..], w, t2, s2);
      assert (t1 + t2)[1..] == t1[1..] + t2;
      assert (s1 + [w] + s2)[1..] == s1[1..] + [w] + s2;
    }
  }

  /** The last token of a line with whitespace is the last token of what
      follows its first run. */
  lemma SplitLastStep(s: string, i: nat, j: nat)
    requires i == WordEnd(s) < |s| && j == i + SpaceEnd(s[i..])
    ensures Split(s)[|Split(s)| - 1] == Split(s[j..])[|Split(s[j..])| - 1]
  {
    SplitUnfold(s, i, j);
    var t := Split(s[j..]);
    assert ([s[..i]] + t)[|t|] == t[|t| - 1];
  }

  /** What follows the first run of a line that does not end in whitespace
      is shorter, non-empty, and ends in the same character. */
  lemma RestKeepsEnd(s: string, i: nat, j: nat)
    requires i == WordEnd(s) < |s| && j == i + SpaceEnd(s[i..])
    requires !IsSpace(s[|s| - 1])
    ensures 0 < j < |s|
    ensures s[j..][|s[j..]| - 1] == s[|s| - 1]
  {
    RunBounds(s, i, j);
    assert s[i..j][j - 1 - i] == s[j - 1];
  }

  /** A line that does not end in whitespace has a non-empty last token. */
  lemma {:induction false} SplitLastToken(s: string)
    requires s != "" && !IsSpace(s[|s| - 1])
    ensures |Split(s)[|Split(s)| - 1]| > 0
    decreases |s|
  {
    var i := WordEnd(s);
    if i < |s| {
      var j := i + SpaceEnd(s[i..]);
      RestKeepsEnd(s, i, j);
      SplitLastToken(s[j..]);
      SplitLastStep(s, i, j);
    } else {
      SplitWhole(s);
    }
  }

  /** A line without whitespace is its own single token. */
  lemma SplitWhole(s: string)
    requires WordEnd(s) == |s|
    ensures Split(s) == [s]
  {
  }

  /** Two decompositions joined at one more separator decompose the joined
      line, provided the tokens on either side of the join are non-empty
      wherever they become inner tokens. */
  lemma SplitOfJoin(a: string, ta: seq<string>, sa: seq<string>, ws: string,
                    b: string, tb: seq<string>, sb: seq<string>)
    requires IsSplitOf(a, ta, sa) && IsSplitOf(b, tb, sb)
    requires |ws| > 0 && AllSpace(ws)
    requires |ta| >= 2 ==> |ta[|ta| - 1]| > 0
    requires |tb| >= 2 ==> |tb[0]| > 0
    ensures IsSplitOf(a + ws + b, ta + tb, sa + [ws] + sb)
  {
    var tokens, seps := ta + tb, sa + [ws] + sb;
    InterleaveConcat(ta, sa, ws, tb, sb);
    forall k | 0 < k < |tokens| - 1
      ensures |tokens[k]| > 0
    {
      if k < |ta| {
        assert tokens[k] == ta[k];
      } else {
        assert tokens[k] == tb[k - |ta|];
      }
    }
    forall k | 0 <= k < |tokens|
      ensures NoSpace(tokens[k])
    {
      if k < |ta| {
        assert tokens[k] == ta[k];
      } else {
        assert tokens[k] == tb[k - |ta|];
      }
    }
    forall k | 0 <= k < |seps|
      ensures |seps[k]| > 0 && AllSpace(seps[k])
    {
      if k < |sa| {
        assert seps[k] == sa[k];
      } else if k > |sa| {
        assert seps[k] == sb[k - |sa| - 1];
      }
    }
  }

  /** Cutting at a whitespace run: when `a` does not end and `b` does not start
      with whitespace, the tokens of `a + ws + b` are those of `a` followed by
      those of `b`. */
  lemma SplitConcat(a: string, ws: string, b: string)
    requires |ws| > 0 && AllSpace(ws)
    requires a == "" || !IsSpace(a[|a| - 1])
    requires b == "" || !IsSpace(b[0])
    ensures Split(a + ws + b) == Split(a) + Split(b)
  {
    SplitSound(a);
    SplitSound(b);
    var ta, tb := Split(a), Split(b);
    if |ta| >= 2 {
      assert a != "";
      SplitLastToken(a);
    }
    if |tb| >= 2 {
      assert WordEnd(b) < |b|;
      assert WordEnd(b) > 0;
    }
    SplitOfJoin(a, ta, Separators(a), ws, b, tb, Separators(b));
    SplitUnique(a + ws + b, ta + tb, Separators(a) + [ws] + Separators(b));
  }

  /** Leading whitespace gives an empty first token and shifts every other
      token one position to the right. */
  lemma SplitLeadingSpace(ws: string, s: string)
    requires |ws| > 0 && AllSpace(ws)
    requires s == "" || !IsSpace(s[0])
    ensures Split(ws + s) == [""] + Split(s)
  {
    var line := ws + s;
    assert line[0] == ws[0];
    assert WordEnd(line) == 0;
    assert line[0..] == ws + s;
    SpaceEndAt(ws, s);
    SplitUnfold(line, 0, |ws|);
    assert line[|ws|..] == s;
  }

  /** Trailing whitespace gives an empty last token. */
  lemma SplitTrailingSpace(s: string, ws: string)
    requires |ws| > 0 && AllSpace(ws)
    requires s == "" || !IsSpace(s[|s| - 1])
    ensures Split(s + ws) == Split(s) + [""]
  {
    var empty: string := [];
    SplitConcat(s, ws, empty);
    assert s + ws + empty == s + ws;
    assert Split(empty) == [empty];
  }

  /** A run of inner whitespace is one separator whatever its length or
      characters. */
  lemma SplitCollapse(a: string, ws1: string, ws2: string, b: string)
    requires |ws1| > 0 && AllSpace(ws1) && |ws2| > 0 && AllSpace(ws2)
    requires a == "" || !IsSpace(a[|a| - 1])
    requires b == "" || !IsSpace(b[0])
    ensures Split(a + ws1 + b) == Split(a + ws2 + b)
  {
    SplitConcat(a, ws1, b);
    SplitConcat(a, ws2, b);
  }
}
