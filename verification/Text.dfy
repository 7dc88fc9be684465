/** The string handling the components share: trimming of Unicode white space, and case folding over ASCII
    letters. */
module Text {

  predicate IsSpace(c: char) {
    || c == ' ' || '\t' <= c <= '\r' || c == '\U{0085}' || c == '\U{00A0}' || c == '\U{1680}'
    || '\U{2000}' <= c <= '\U{200A}' || c == '\U{2028}' || c == '\U{2029}' || c == '\U{202F}'
    || c == '\U{205F}' || c == '\U{3000}'
  }

  predicate AllSpace(s: string) {
    forall c | c in s :: IsSpace(c)
  }

  function TrimLeft(s: string): string {
    if s != [] && IsSpace(s[0]) then TrimLeft(s[1..]) else s
  }

  function TrimRight(s: string): string {
    if s != [] && IsSpace(s[|s| - 1]) then TrimRight(s[..|s| - 1]) else s
  }

  function TrimSpace(s: string): string {
    TrimRight(TrimLeft(s))
  }

  function LowerChar(c: char): char {
    if 'A' <= c <= 'Z' then c - 'A' + 'a' else c
  }

  function UpperChar(c: char): char {
    if 'a' <= c <= 'z' then c - 'a' + 'A' else c
  }

  function ToLower(s: string): (r: string)
    ensures |r| == |s| && forall i | 0 <= i < |s| :: r[i] == LowerChar(s[i])
  {
    if s == [] then [] else [LowerChar(s[0])] + ToLower(s[1..])
  }

  function ToUpper(s: string): (r: string)
    ensures |r| == |s| && forall i | 0 <= i < |s| :: r[i] == UpperChar(s[i])
  {
    if s == [] then [] else [UpperChar(s[0])] + ToUpper(s[1..])
  }

  predicate HasPrefix(s: string, prefix: string) {
    prefix <= s
  }

  /** Neither end is a space. */
  predicate Trimmed(s: string) {
    s == [] || (!IsSpace(s[0]) && !IsSpace(s[|s| - 1]))
  }

  lemma {:induction false} TrimLeftSplits(s: string)
    ensures exists pad :: AllSpace(pad) && s == pad + TrimLeft(s)
    ensures TrimLeft(s) == [] || !IsSpace(TrimLeft(s)[0])
  {
    hide IsSpace;
    if s != [] && IsSpace(s[0]) {
      TrimLeftSplits(s[1..]);
      var pad :| AllSpace(pad) && s[1..] == pad + TrimLeft(s[1..]);
      assert s == ([s[0]] + pad) + TrimLeft(s);
      assert AllSpace([s[0]] + pad);
    } else {
      assert AllSpace([]) && s == [] + TrimLeft(s);
    }
  }

  lemma {:induction false} TrimRightSplits(s: string)
    ensures TrimRight(s) <= s
    ensures exists pad :: AllSpace(pad) && s == TrimRight(s) + pad
    ensures TrimRight(s) == [] || !IsSpace(TrimRight(s)[|TrimRight(s)| - 1])
  {
    hide IsSpace;
    if s != [] && IsSpace(s[|s| - 1]) {
      var n := |s| - 1;
      TrimRightSplits(s[..n]);
      var pad :| AllSpace(pad) && s[..n] == TrimRight(s[..n]) + pad;
      assert TrimRight(s) == TrimRight(s[..n]);
      assert s == s[..n] + [s[n]] == TrimRight(s) + (pad + [s[n]]);
      assert AllSpace(pad + [s[n]]);
    } else {
      assert AllSpace([]) && s == TrimRight(s) + [];
    }
  }

  lemma TrimSpaceTrims(s: string)
    ensures Trimmed(TrimSpace(s))
  {
    TrimLeftSplits(s);
    TrimRightSplits(TrimLeft(s));
  }

  lemma {:induction false} TrimLeftDrops(pad: string, s: string)
    requires AllSpace(pad)
    ensures TrimLeft(pad + s) == TrimLeft(s)
  {
    hide IsSpace;
    if pad == [] {
      assert pad + s == s;
    } else {
      assert (pad + s)[1..] == pad[1..] + s;
      assert pad[0] in pad;
      TrimLeftDrops(pad[1..], s);
    }
  }

  lemma {:induction false} TrimRightDrops(s: string, pad: string)
    requires AllSpace(pad)
    ensures TrimRight(s + pad) == TrimRight(s)
  {
    hide IsSpace;
    if pad == [] {
      assert s + pad == s;
    } else {
      var n := |pad| - 1;
      assert (s + pad)[..|s + pad| - 1] == s + pad[..n];
      assert pad[n] in pad;
      TrimRightDrops(s, pad[..n]);
    }
  }

  lemma {:induction false} TrimLeftAll(s: string)
    requires AllSpace(s)
    ensures TrimLeft(s) == []
  {
    hide IsSpace;
    if s != [] {
      assert s[0] in s;
      TrimLeftAll(s[1..]);
    }
  }

  /** A core without outer spaces is what trimming any padded form of it gives. */
  lemma TrimSpaceOfPadded(left: string, core: string, right: string)
    requires AllSpace(left) && AllSpace(right) && Trimmed(core)
    ensures TrimSpace(left + core + right) == core
  {
    assert left + core + right == left + (core + right);
    TrimLeftDrops(left, core + right);
    if core == [] {
      assert core + right == right;
      TrimLeftAll(right);
    } else {
      assert TrimLeft(core + right) == core + right;
      TrimRightDrops(core, right);
    }
  }

  /** Every string is a trimmed core between two runs of spaces. */
  lemma TrimSpaceSplits(s: string) returns (left: string, right: string)
    ensures AllSpace(left) && AllSpace(right) && s == left + TrimSpace(s) + right && Trimmed(TrimSpace(s))
  {
    TrimLeftSplits(s);
    TrimRightSplits(TrimLeft(s));
    left :| AllSpace(left) && s == left + TrimLeft(s);
    right :| AllSpace(right) && TrimLeft(s) == TrimSpace(s) + right;
    TrimSpaceTrims(s);
  }

  /** Lowering changes neither spaces nor what is a space. */
  lemma LowerKeepsSpaces(s: string)
    ensures AllSpace(s) ==> ToLower(s) == s
    ensures Trimmed(s) ==> Trimmed(ToLower(s))
  {
    if AllSpace(s) {
      assert forall i | 0 <= i < |s| :: s[i] in s;
    }
  }

  lemma LowerOfConcat(a: string, b: string)
    ensures ToLower(a + b) == ToLower(a) + ToLower(b)
  {
  }

  lemma LowerIdempotent(s: string)
    ensures ToLower(ToLower(s)) == ToLower(s)
  {
  }

  /** The comparison form of an address: trimmed and lowered. */
  function Normal(address: string): string {
    ToLower(TrimSpace(address))
  }

  lemma TrimSpaceIgnoresPadding(left: string, s: string, right: string)
    requires AllSpace(left) && AllSpace(right)
    ensures TrimSpace(left + s + right) == TrimSpace(s)
  {
    var l, r := TrimSpaceSplits(s);
    var core := TrimSpace(s);
    calc {
      left + s + right;
      left + (l + core + r) + right;
      (left + l) + core + (r + right);
    }
    TrimSpaceOfPadded(left + l, core, r + right);
  }

  /** Surrounding spaces and letter case do not change the comparison form. */
  lemma NormalIgnoresCaseAndSpaces(left: string, address: string, right: string, other: string)
    requires AllSpace(left) && AllSpace(right) && ToLower(address) == ToLower(other)
    ensures Normal(left + address + right) == Normal(other)
  {
    TrimSpaceIgnoresPadding(left, address, right);
    NormalOfLower(address);
    NormalOfLower(other);
  }

  /** Lowering first or last gives the same comparison form. */
  lemma NormalOfLower(address: string)
    ensures Normal(address) == TrimSpace(ToLower(address))
  {
    var left, right := TrimSpaceSplits(address);
    var core := TrimSpace(address);
    LowerOfConcat(left + core, right);
    LowerOfConcat(left, core);
    LowerKeepsSpaces(left);
    LowerKeepsSpaces(right);
    LowerKeepsSpaces(core);
    TrimSpaceOfPadded(left, ToLower(core), right);
  }

  lemma NormalIdempotent(address: string)
    ensures Normal(Normal(address)) == Normal(address)
  {
    TrimSpaceTrims(address);
    var core := Normal(address);
    LowerKeepsSpaces(TrimSpace(address));
    assert [] + core + [] == core;
    TrimSpaceOfPadded([], core, []);
    LowerIdempotent(TrimSpace(address));
  }

  /** Nothing is left after trimming exactly when there were only spaces. */
  lemma BlankMeansSpaces(s: string)
    ensures TrimSpace(s) == "" <==> AllSpace(s)
  {
    var left, right := TrimSpaceSplits(s);
    if AllSpace(s) {
      TrimLeftAll(s);
    }
  }

  const CAPITALS := "ABCDEFGHIJKLMNOPQRSTUVWXYZ"
  const SMALL := "abcdefghijklmnopqrstuvwxyz"

  /** Folding exchanges the two cases of each ASCII letter. */
  lemma LettersFold(i: nat)
    requires i < 26
    ensures LowerChar(CAPITALS[i]) == LowerChar(SMALL[i]) == SMALL[i]
    ensures UpperChar(SMALL[i]) == UpperChar(CAPITALS[i]) == CAPITALS[i]
  {
  }
}
