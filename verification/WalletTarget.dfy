/** The canonical form of a wallet target address (internal/cpstore/wallet_target.go). */
module WalletTarget {
  import opened Text

  datatype Target = Canonical(address: string) | Missing | Malformed

  predicate IsLowerHex(c: char) {
    '0' <= c <= '9' || 'a' <= c <= 'f'
  }

  predicate IsHex(c: char) {
    IsLowerHex(c) || 'A' <= c <= 'F'
  }

  /** Forty hexadecimal digits in any letter case. */
  predicate IsDigits(digits: string) {
    |digits| == 40 && forall c | c in digits :: IsHex(c)
  }

  /** The three spellings of an address: bare digits, or digits after 0x or 0X. */
  predicate Spells(text: string, digits: string) {
    IsDigits(digits) && (text == digits || text == "0x" + digits || text == "0X" + digits)
  }

  /** The digits that a text could spell. */
  function DigitsOf(text: string): string {
    if "0x" <= text || "0X" <= text then text[2..] else text
  }

  /** Reference definition: the lower-case 0x form of the digits that the trimmed text spells. */
  function Normalized(address: string): Target {
    var text := TrimSpace(address);
    if text == "" then Missing
    else if Spells(text, DigitsOf(text)) then Canonical("0x" + ToLower(DigitsOf(text)))
    else Malformed
  }

  lemma LowerOfDigits(digits: string)
    ensures (forall c | c in ToLower(digits) :: IsLowerHex(c)) <==> (forall c | c in digits :: IsHex(c))
  {
    var low := ToLower(digits);
    if forall c | c in digits :: IsHex(c) {
      forall c | c in low ensures IsLowerHex(c) {
        var i :| 0 <= i < |low| && low[i] == c;
        assert digits[i] in digits;
      }
    }
    if forall c | c in low :: IsLowerHex(c) {
      forall c | c in digits ensures IsHex(c) {
        var i :| 0 <= i < |digits| && digits[i] == c;
        assert low[i] in low;
      }
    }
  }

  lemma PrefixedLower(digits: string)
    ensures var form := ToLower("0x" + digits);
            && form == "0x" + ToLower(digits)
            && ((forall i | 2 <= i < |form| :: IsLowerHex(form[i])) <==> (forall c | c in digits :: IsHex(c)))
  {
    var low := ToLower(digits);
    var form := "0x" + low;
    LowerOfConcat("0x", digits);
    LowerOfDigits(digits);
    assert ToLower("0x") == "0x";
    assert forall i | 0 <= i < |low| :: low[i] == form[i + 2];
    assert (forall i | 2 <= i < |form| :: IsLowerHex(form[i])) <==> (forall c | c in low :: IsLowerHex(c)) by {
      if forall i | 2 <= i < |form| :: IsLowerHex(form[i]) {
        forall c | c in low ensures IsLowerHex(c) {
          var i :| 0 <= i < |low| && low[i] == c;
          assert form[i + 2] == c;
        }
      }
      if forall c | c in low :: IsLowerHex(c) {
        assert forall i | 2 <= i < |form| :: form[i] == low[i - 2] && low[i - 2] in low;
      }
    }
  }

  /** With the digits known, the remaining text decides between acceptance and rejection. */
  lemma NormalizedByDigits(address: string, digits: string)
    requires TrimSpace(address) != "" && digits == DigitsOf(TrimSpace(address))
    ensures Normalized(address) == if IsDigits(digits) then Canonical("0x" + ToLower(digits)) else Malformed
  {
  }

  method NormalizeWalletTargetAddress(address: string) returns (target: Target)
    ensures target == Normalized(address)
  {
    var a := TrimSpace(address);
    if a == "" {
      return Missing;
    }
    ghost var digits := DigitsOf(a);
    NormalizedByDigits(address, digits);
    if HasPrefix(a, "0X") {
      a := "0x" + a[2..];
    }
    if !HasPrefix(a, "0x") {
      a := "0x" + a;
    }
    assert a == "0x" + digits;
    a := ToLower(a);
    PrefixedLower(digits);
    target := AcceptLowerHex(a);
  }

  /** The length, prefix and digit checks on the lowered text. */
  method AcceptLowerHex(a: string) returns (target: Target)
    ensures target == if |a| == 42 && "0x" <= a && (forall i | 2 <= i < |a| :: IsLowerHex(a[i])) then Canonical(a) else Malformed
  {
    if |a| != 42 || !HasPrefix(a, "0x") {
      return Malformed;
    }
    for i := 2 to |a|
      invariant forall j | 2 <= j < i :: IsLowerHex(a[j])
    {
      if (a[i] < '0' || a[i] > '9') && (a[i] < 'a' || a[i] > 'f') {
        return Malformed;
      }
    }
    target := Canonical(a);
  }

  /** An address is accepted exactly when its trimmed text spells some digits, and those digits alone
      decide the canonical form. */
  lemma AcceptedSpellings(address: string, digits: string)
    ensures Normalized(address).Canonical? <==> exists d :: Spells(TrimSpace(address), d)
    ensures Spells(TrimSpace(address), digits) ==> Normalized(address) == Canonical("0x" + ToLower(digits))
  {
    forall d | Spells(TrimSpace(address), d)
      ensures Normalized(address) == Canonical("0x" + ToLower(d))
    {
      var text := TrimSpace(address);
      if text == d {
        assert d[1] in d;
      }
      assert DigitsOf(text) == d;
    }
  }

  /** Two accepted addresses have one canonical form exactly when their digits differ at most in case. */
  lemma SameTarget(a: string, b: string, x: string, y: string)
    requires Spells(TrimSpace(a), x) && Spells(TrimSpace(b), y)
    ensures Normalized(a) == Normalized(b) <==> ToLower(x) == ToLower(y)
  {
    AcceptedSpellings(a, x);
    AcceptedSpellings(b, y);
    assert ("0x" + ToLower(x))[2..] == ToLower(x) && ("0x" + ToLower(y))[2..] == ToLower(y);
  }

  /** A canonical address is its own canonical form. */
  lemma NormalizedIdempotent(address: string)
    requires Normalized(address).Canonical?
    ensures Normalized(Normalized(address).address) == Normalized(address)
  {
    var digits := DigitsOf(TrimSpace(address));
    var low := ToLower(digits);
    var form := "0x" + low;
    LowerOfDigits(digits);
    LowerOfDigits(low);
    LowerIdempotent(digits);
    DigitsAreTrimmed(form, low);
    AcceptedSpellings(form, low);
  }

  /** Surrounding spaces, the prefix and the case of the digits do not change the canonical form. */
  lemma SpellingsAgree(left: string, text: string, right: string, digits: string)
    requires AllSpace(left) && AllSpace(right) && Spells(text, digits)
    ensures Normalized(left + text + right) == Normalized(digits) == Normalized(ToLower(digits))
  {
    var low := ToLower(digits);
    LowerOfDigits(digits);
    LowerOfDigits(low);
    LowerIdempotent(digits);
    DigitsAreTrimmed(text, digits);
    DigitsAreTrimmed(digits, digits);
    DigitsAreTrimmed(low, low);
    TrimSpaceIgnoresPadding(left, text, right);
    AcceptedSpellings(left + text + right, digits);
    AcceptedSpellings(digits, digits);
    AcceptedSpellings(low, low);
  }

  lemma DigitsAreTrimmed(text: string, digits: string)
    requires Spells(text, digits)
    ensures TrimSpace(text) == text
  {
    assert digits[0] in digits && digits[39] in digits;
    assert text[|text| - 1] == digits[39];
    assert text[0] == digits[0] || text[0] == '0';
    assert [] + text + [] == text;
    TrimSpaceOfPadded([], text, []);
  }
}
