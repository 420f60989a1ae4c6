/** The few Python string operations the console relies on: `str.split()` with no
    argument, the slice `s[1:-1]`, and the substring test `sub in s`. */
module PyText {

  /** Python's `str.isspace()` for one character: the separators `str.split()` uses. */
  predicate IsSpace(c: char) {
    var n := c as int;
    || 9 <= n <= 13 || 28 <= n <= 32 || n == 0x85 || n == 0xA0 || n == 0x1680
    || 0x2000 <= n <= 0x200A || n == 0x2028 || n == 0x2029 || n == 0x202F
    || n == 0x205F || n == 0x3000
  }

  predicate NoSpace(s: string) {
    forall i :: 0 <= i < |s| ==> !IsSpace(s[i])
  }

  predicate AllSpace(s: string) {
    forall i :: 0 <= i < |s| ==> IsSpace(s[i])
  }

  /** A token as `str.split()` produces it: non-empty and free of whitespace. */
  predicate IsWord(w: string) {
    w != [] && NoSpace(w)
  }

  /** Length of the leading run of whitespace. */
  function SpaceRun(s: string): (n: nat)
    ensures n <= |s|
    ensures AllSpace(s[..n])
    ensures n < |s| ==> !IsSpace(s[n])
  {
    if s != [] && IsSpace(s[0]) then 1 + SpaceRun(s[1..]) else 0
  }

  /** Length of the leading run of non-whitespace. */
  function WordRun(s: string): (n: nat)
    ensures n <= |s|
    ensures NoSpace(s[..n])
    ensures n < |s| ==> IsSpace(s[n])
  {
    if s != [] && !IsSpace(s[0]) then 1 + WordRun(s[1..]) else 0
  }

  /** `s.split()`: the maximal runs of non-whitespace, in order. */
  function Split(s: string): (r: seq<string>)
    ensures forall i :: 0 <= i < |r| ==> IsWord(r[i])
    ensures r == [] <==> AllSpace(s)
    decreases |s|
  {
    var a := SpaceRun(s);
    if a == |s| then
      assert s[..a] == s;
      []
    else
      var rest := s[a..];
      var w := WordRun(rest);
      [rest[..w]] + Split(rest[w..])
  }

  /** Reference definition: the characters of `s` that are not whitespace. */
  function Squeeze(s: string): string {
    if s == [] then [] else (if IsSpace(s[0]) then [] else [s[0]]) + Squeeze(s[1..])
  }

  function Concat(ws: seq<string>): string {
    if ws == [] then [] else ws[0] + Concat(ws[1..])
  }

  /** `" ".join(ws)` */
  function Join(ws: seq<string>): string {
    if |ws| == 0 then [] else if |ws| == 1 then ws[0] else ws[0] + " " + Join(ws[1..])
  }

  lemma {:induction false} SqueezeAppend(x: string, y: string)
    ensures Squeeze(x + y) == Squeeze(x) + Squeeze(y)
    decreases |x|
  {
    if x == [] {
      assert x + y == y;
    } else {
      assert (x + y)[1..] == x[1..] + y;
      SqueezeAppend(x[1..], y);
    }
  }

  lemma {:induction false} SqueezeOfSpaces(x: string)
    requires AllSpace(x)
    ensures Squeeze(x) == []
    decreases |x|
  {
    if x != [] {
      SqueezeOfSpaces(x[1..]);
    }
  }

  lemma {:induction false} SqueezeOfWord(x: string)
    requires NoSpace(x)
    ensures Squeeze(x) == x
    decreases |x|
  {
    if x != [] {
      SqueezeOfWord(x[1..]);
    }
  }

  /** Leading whitespace contributes nothing to `Squeeze`. */
  lemma SqueezeAfterSpaces(s: string, a: nat)
    requires a <= |s| && AllSpace(s[..a])
    ensures Squeeze(s) == Squeeze(s[a..])
  {
    assert s == s[..a] + s[a..];
    SqueezeAppend(s[..a], s[a..]);
    SqueezeOfSpaces(s[..a]);
  }

  /** A leading word is kept whole by `Squeeze`. */
  lemma SqueezeAfterWord(s: string, w: nat)
    requires w <= |s| && NoSpace(s[..w])
    ensures Squeeze(s) == s[..w] + Squeeze(s[w..])
  {
    assert s == s[..w] + s[w..];
    SqueezeAppend(s[..w], s[w..]);
    SqueezeOfWord(s[..w]);
  }

  /** The tokens of `s`, put back together, are exactly its non-whitespace characters. */
  lemma {:induction false} SplitKeepsCharacters(s: string)
    ensures Concat(Split(s)) == Squeeze(s)
    decreases |s|
  {
    var a := SpaceRun(s);
    SqueezeAfterSpaces(s, a);
    if a < |s| {
      var rest := s[a..];
      var w := WordRun(rest);
      SqueezeAfterWord(rest, w);
      SplitKeepsCharacters(rest[w..]);
      assert Split(s) == [rest[..w]] + Split(rest[w..]);
      assert Concat(Split(s)) == rest[..w] + Concat(Split(rest[w..]));
    } else {
      assert s[a..] == [];
    }
  }

  lemma {:induction false} SpaceRunOfWordFirst(w: string, tail: string)
    requires IsWord(w)
    ensures SpaceRun(w + tail) == 0
  {
    assert (w + tail)[0] == w[0];
  }

  lemma {:induction false} WordRunOfWord(w: string, tail: string)
    requires NoSpace(w)
    requires tail == [] || IsSpace(tail[0])
    ensures WordRun(w + tail) == |w|
    decreases |w|
  {
    if w == [] {
      assert w + tail == tail;
    } else {
      assert (w + tail)[0] == w[0];
      assert (w + tail)[1..] == w[1..] + tail;
      WordRunOfWord(w[1..], tail);
    }
  }

  lemma {:induction false} SplitSkipsLeadingSpace(c: char, s: string)
    requires IsSpace(c)
    ensures Split([c] + s) == Split(s)
  {
    var t := [c] + s;
    assert t[1..] == s;
    assert SpaceRun(t) == 1 + SpaceRun(s);
    assert t[SpaceRun(t)..] == s[SpaceRun(s)..];
  }

  lemma {:induction false} SplitOfWordThen(w: string, tail: string)
    requires IsWord(w)
    requires tail == [] || IsSpace(tail[0])
    ensures Split(w + tail) == [w] + Split(tail)
  {
    var s := w + tail;
    SpaceRunOfWordFirst(w, tail);
    assert s[0..] == s;
    WordRunOfWord(w, tail);
    assert s[..|w|] == w;
    assert s[|w|..] == tail;
  }

  /** Splitting undoes joining with single spaces, for well-formed tokens. */
  lemma {:induction false} SplitJoin(ws: seq<string>)
    requires forall i :: 0 <= i < |ws| ==> IsWord(ws[i])
    ensures Split(Join(ws)) == ws
    decreases |ws|
  {
    if |ws| == 0 {
    } else if |ws| == 1 {
      SplitOfWordThen(ws[0], []);
      assert ws[0] + [] == ws[0];
    } else {
      var tail := " " + Join(ws[1..]);
      assert Join(ws) == ws[0] + tail;
      SplitOfWordThen(ws[0], tail);
      SplitSkipsLeadingSpace(' ', Join(ws[1..]));
      SplitJoin(ws[1..]);
    }
  }

  /** `s[1:-1]`: `s` without its first and last character (empty when `|s| < 2`). */
  function Inner(s: string): (r: string)
    ensures |r| == if |s| >= 2 then |s| - 2 else 0
    ensures |s| >= 2 ==> [s[0]] + r + [s[|s| - 1]] == s
  {
    if |s| >= 2 then s[1..|s| - 1] else []
  }

  /** Whatever the two end characters are, `Inner` drops exactly them. */
  lemma InnerDropsEnds(open: char, v: string, close: char)
    ensures Inner([open] + v + [close]) == v
  {
    var s := [open] + v + [close];
    assert s[1..|s| - 1] == v;
  }

  /** Python's `sub in s` for strings. */
  predicate Contains(s: string, sub: string)
    decreases |s|
  {
    sub <= s || (s != [] && Contains(s[1..], sub))
  }

  /** `sub` occurs in `s` starting at index `i`. */
  predicate OccursAt(s: string, sub: string, i: int) {
    0 <= i <= |s| - |sub| && s[i..i + |sub|] == sub
  }

  /** Reference definition of `sub in s`: some slice of `s` equals `sub`. */
  lemma ContainsIffOccurs(s: string, sub: string)
    ensures Contains(s, sub) <==> exists i :: OccursAt(s, sub, i)
  {
    if Contains(s, sub) {
      var i := ContainsWitness(s, sub);
    }
    if exists i :: OccursAt(s, sub, i) {
      var i :| OccursAt(s, sub, i);
      OccursContains(s, sub, i);
    }
  }

  /** Where `sub in s` finds `sub`. */
  lemma {:induction false} ContainsWitness(s: string, sub: string) returns (i: int)
    requires Contains(s, sub)
    ensures OccursAt(s, sub, i)
    decreases |s|
  {
    if sub <= s {
      i := 0;
    } else {
      var j := ContainsWitness(s[1..], sub);
      i := j + 1;
      assert s[1..][j..j + |sub|] == s[i..i + |sub|];
    }
  }

  /** An occurrence anywhere makes `sub in s` true. */
  lemma {:induction false} OccursContains(s: string, sub: string, i: int)
    requires OccursAt(s, sub, i)
    ensures Contains(s, sub)
    decreases |s|
  {
    if i == 0 {
      assert sub <= s;
    } else {
      assert s[1..][i - 1..i - 1 + |sub|] == s[i..i + |sub|];
      OccursContains(s[1..], sub, i - 1);
    }
  }

}
