/** Python's `str.strip()` with no argument, as the feeder applies it to every raw
    line of the job file before putting it on the queue. */
module Text {

  /** `str.isspace()` for one character: the characters whose bidirectional class is
      WS, B or S, or whose general category is Zs. These are exactly the characters
      `str.strip()` removes. */
  predicate IsSpace(c: char) {
    ('\t' <= c <= '\r') || ('\U{1C}' <= c <= '\U{1F}') || c == ' ' ||
    c == '\U{85}' || c == '\U{A0}' || c == '\U{1680}' ||
    ('\U{2000}' <= c <= '\U{200A}') || c == '\U{2028}' || c == '\U{2029}' ||
    c == '\U{202F}' || c == '\U{205F}' || c == '\U{3000}'
  }

  predicate AllSpace(s: string) {
    forall k :: 0 <= k < |s| ==> IsSpace(s[k])
  }

  /** `s[i..j]` is what is left of `s` once all leading and trailing whitespace is cut:
      everything outside it is whitespace, and it neither starts nor ends with whitespace. */
  predicate StripsTo(s: string, i: int, j: int) {
    0 <= i <= j <= |s| &&
    AllSpace(s[..i]) && AllSpace(s[j..]) &&
    (i == j || (!IsSpace(s[i]) && !IsSpace(s[j - 1])))
  }

  /** `str.lstrip()` */
  function TrimStart(s: string): string
    decreases |s|
  {
    if s != [] && IsSpace(s[0]) then TrimStart(s[1..]) else s
  }

  /** `str.rstrip()` */
  function TrimEnd(s: string): string
    decreases |s|
  {
    if s != [] && IsSpace(s[|s| - 1]) then TrimEnd(s[..|s| - 1]) else s
  }

  /** `str.strip()` */
  function Strip(s: string): string {
    TrimEnd(TrimStart(s))
  }

  /** TrimStart cuts a run of whitespace off the front, and no more. */
  lemma {:induction false} TrimStartSpec(s: string)
    ensures var r := TrimStart(s);
      |r| <= |s| && r == s[|s| - |r|..] && AllSpace(s[..|s| - |r|]) &&
      (r == [] || !IsSpace(r[0]))
    decreases |s|
  {
    if s != [] && IsSpace(s[0]) {
      TrimStartSpec(s[1..]);
      var r := TrimStart(s);
      assert s[..|s| - |r|] == [s[0]] + s[1..][..|s| - 1 - |r|];
    }
  }

  /** TrimEnd cuts a run of whitespace off the back, and no more. */
  lemma {:induction false} TrimEndSpec(s: string)
    ensures var r := TrimEnd(s);
      |r| <= |s| && r == s[..|r|] && AllSpace(s[|r|..]) &&
      (r == [] || !IsSpace(r[|r| - 1]))
    decreases |s|
  {
    if s != [] && IsSpace(s[|s| - 1]) {
      TrimEndSpec(s[..|s| - 1]);
      var r := TrimEnd(s);
      assert s[|r|..] == s[..|s| - 1][|r|..] + [s[|s| - 1]];
    }
  }

  /** What Strip leaves is a slice of `s` that only whitespace surrounds and that has no
      whitespace at either end. */
  lemma StripIsSlice(s: string)
    ensures exists i, j :: StripsTo(s, i, j) && Strip(s) == s[i..j]
  {
    var t := TrimStart(s);
    TrimStartSpec(s);
    var r := TrimEnd(t);
    TrimEndSpec(t);
    var i := |s| - |t|;
    assert s[..i + |r|] == s[..i] + r[..];
    assert s[i + |r|..] == t[|r|..];
    assert StripsTo(s, i, i + |r|) && r == s[i..i + |r|];
  }

  /** Every character outside a stripped slice is whitespace. */
  lemma SpaceOutside(s: string, i: int, j: int)
    requires StripsTo(s, i, j)
    ensures forall k :: 0 <= k < |s| && !(i <= k < j) ==> IsSpace(s[k])
  {
    forall k | 0 <= k < |s| && !(i <= k < j) ensures IsSpace(s[k]) {
      if k < i {
        assert s[..i][k] == s[k];
      } else {
        assert s[j..][k - j] == s[k];
      }
    }
  }

  /** Two ways of cutting whitespace off `s` leave the same slice. */
  lemma StripsToUnique(s: string, i: int, j: int, i': int, j': int)
    requires StripsTo(s, i, j) && StripsTo(s, i', j')
    ensures s[i..j] == s[i'..j']
  {
    SpaceOutside(s, i, j);
    SpaceOutside(s, i', j');
  }

  /** Strip is characterised by StripsTo: any slice that only whitespace surrounds and
      that has no whitespace at its ends is the stripped string. */
  lemma StripUnique(s: string, i: int, j: int)
    requires StripsTo(s, i, j)
    ensures Strip(s) == s[i..j]
  {
    StripIsSlice(s);
    var i', j' :| StripsTo(s, i', j') && Strip(s) == s[i'..j'];
    StripsToUnique(s, i, j, i', j');
  }

  /** Stripping twice is stripping once. */
  lemma StripIdempotent(s: string)
    ensures Strip(Strip(s)) == Strip(s)
  {
    var r := Strip(s);
    StripIsSlice(s);
    var i, j :| StripsTo(s, i, j) && r == s[i..j];
    assert r[..0] == [] && r[|r|..] == [];
    StripUnique(r, 0, |r|);
  }

  /** A blank line (only whitespace, newline included) becomes the empty entity;
      it is not skipped. */
  lemma BlankLineIsEmptyEntity(s: string)
    requires AllSpace(s)
    ensures Strip(s) == ""
  {
    assert s[..|s|] == s && s[|s|..] == [];
    StripUnique(s, |s|, |s|);
  }

  /** A line with no whitespace at its ends, followed by a newline, strips to itself:
      this is how a line from `readlines()` becomes an entity. */
  lemma StripDropsNewline(e: string)
    requires e == [] || (!IsSpace(e[0]) && !IsSpace(e[|e| - 1]))
    ensures Strip(e + "\n") == e
  {
    var s := e + "\n";
    assert s[..0] == [] && s[|e|..] == "\n" && s[0..|e|] == e;
    StripUnique(s, 0, |e|);
  }

  /** Each raw line stripped, in order. */
  function StripAll(lines: seq<string>): (entities: seq<string>)
    ensures |entities| == |lines|
  {
    if lines == [] then [] else [Strip(lines[0])] + StripAll(lines[1..])
  }

  lemma {:induction false} StripAllAt(lines: seq<string>, k: int)
    requires 0 <= k < |lines|
    ensures StripAll(lines)[k] == Strip(lines[k])
  {
    if k > 0 {
      StripAllAt(lines[1..], k - 1);
    }
  }

  /** Stripping the lines from `k` on is dropping the first `k` stripped lines. */
  lemma {:induction false} StripAllDrop(lines: seq<string>, k: int)
    requires 0 <= k <= |lines|
    ensures StripAll(lines[k..]) == StripAll(lines)[k..]
    decreases k
  {
    if k > 0 {
      StripAllDrop(lines[1..], k - 1);
      assert lines[1..][k - 1..] == lines[k..];
    }
  }
}
