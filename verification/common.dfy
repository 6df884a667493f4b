/** Values and text operations shared by the C# and the Node dialogs:
    optional values, results, the action a dialog turn ends with, white-space
    trimming, ordinal case-insensitive comparison and 32-bit integer parsing. */
module Common {

  datatype Option<+T> = None | Some(value: T)

  datatype Result<+T, +E> = Ok(value: T) | Err(error: E)

  /** What a dialog does at the end of one turn.
      Wait:       it stays active and handles the next message (context.Wait, no endDialog).
      CallChild:  it suspends and starts a child dialog (context.Call, session.beginDialog).
      Done:       it completes with a result (context.Done, session.endDialogWithResult).
      Next:       a waterfall step hands its input results to the next step (next(results)).
      Replace:    it replaces itself with another dialog (session.replaceDialog).
      Fault:      an exception escapes the turn. */
  datatype Action<+Child, +R> =
    | Wait
    | CallChild(child: Child)
    | Done(result: R)
    | Next(passed: R)
    | Replace(target: Child)
    | Fault

  // ---------------------------------------------------------------------------
  // Trimming (String.Trim in C#, String.prototype.trim in JavaScript)

  /** The white-space characters removed by trimming: the Unicode white-space
      characters, plus U+FEFF, which JavaScript also trims. */
  predicate IsWhiteSpace(c: char) {
    c == ' ' || ('\t' <= c <= '\r') || c == '\U{85}' || c == '\U{A0}' || c == '\U{1680}'
    || ('\U{2000}' <= c <= '\U{200A}') || c == '\U{2028}' || c == '\U{2029}'
    || c == '\U{202F}' || c == '\U{205F}' || c == '\U{3000}' || c == '\U{FEFF}'
  }

  function TrimStart(s: string): (r: string)
    ensures |r| <= |s| && r == s[|s| - |r|..]
    ensures forall k :: 0 <= k < |s| - |r| ==> IsWhiteSpace(s[k])
    ensures r != [] ==> !IsWhiteSpace(r[0])
  {
    if |s| > 0 && IsWhiteSpace(s[0]) then TrimStart(s[1..]) else s
  }

  function TrimEnd(s: string): (r: string)
    ensures |r| <= |s| && r == s[..|r|]
    ensures forall k :: |r| <= k < |s| ==> IsWhiteSpace(s[k])
    ensures r != [] ==> !IsWhiteSpace(r[|r| - 1])
  {
    if |s| > 0 && IsWhiteSpace(s[|s| - 1]) then TrimEnd(s[..|s| - 1]) else s
  }

  /** The text with leading and trailing white space removed. */
  function Trim(s: string): (r: string)
    ensures |r| <= |s|
    ensures r != [] ==> !IsWhiteSpace(r[0]) && !IsWhiteSpace(r[|r| - 1])
  {
    TrimEnd(TrimStart(s))
  }

  /** What trimming cuts off is white space, from either end only. */
  lemma TrimIsSlice(s: string)
    ensures exists i, j :: 0 <= i <= j <= |s| && Trim(s) == s[i..j]
                           && (forall k :: 0 <= k < i ==> IsWhiteSpace(s[k]))
                           && (forall k :: j <= k < |s| ==> IsWhiteSpace(s[k]))
  {
    var t := TrimStart(s);
    var r := TrimEnd(t);
    var i := |s| - |t|;
    var j := i + |r|;
    assert Trim(s) == s[i..j] by {
      assert t == s[i..] && r == t[..|r|];
    }
    assert forall k :: j <= k < |s| ==> IsWhiteSpace(s[k]) by {
      forall k | j <= k < |s|
        ensures IsWhiteSpace(s[k])
      {
        assert s[k] == t[k - i];
      }
    }
  }

  /** Trimming text that is already trimmed changes nothing. */
  lemma TrimTrimmed(s: string)
    requires s != [] ==> !IsWhiteSpace(s[0]) && !IsWhiteSpace(s[|s| - 1])
    ensures Trim(s) == s
  {
    assert TrimStart(s) == s;
    assert TrimEnd(s) == s;
  }

  /** Trimming is idempotent. */
  lemma TrimIdempotent(s: string)
    ensures Trim(Trim(s)) == Trim(s)
  {
    TrimTrimmed(Trim(s));
  }

  // ---------------------------------------------------------------------------
  // Ordinal case-insensitive comparison (StringComparer.OrdinalIgnoreCase,
  // the 'i' flag of a regular expression), on the ASCII letters

  function UpperAscii(c: char): (u: char)
    ensures 'a' <= c <= 'z' ==> 'A' <= u <= 'Z' && u as int == c as int - 32
    ensures !('a' <= c <= 'z') ==> u == c
  {
    if 'a' <= c <= 'z' then (c as int - 32) as char else c
  }

  function Fold(s: string): (r: string)
    ensures |r| == |s| && forall k :: 0 <= k < |s| ==> r[k] == UpperAscii(s[k])
  {
    seq(|s|, k requires 0 <= k < |s| => UpperAscii(s[k]))
  }

  predicate EqualsIgnoreCase(a: string, b: string) {
    Fold(a) == Fold(b)
  }

  predicate IsAsciiLetter(c: char) { 'a' <= c <= 'z' || 'A' <= c <= 'Z' }

  /** Two texts are equal ignoring case exactly when they have the same length
      and agree character by character up to the case of ASCII letters; where
      they differ at all, both characters are letters. */
  lemma EqualsIgnoreCaseCharwise(a: string, b: string)
    ensures EqualsIgnoreCase(a, b) <==>
              |a| == |b| && forall k :: 0 <= k < |a| ==> UpperAscii(a[k]) == UpperAscii(b[k])
    ensures EqualsIgnoreCase(a, b) ==>
              forall k :: 0 <= k < |a| && a[k] != b[k] ==> IsAsciiLetter(a[k]) && IsAsciiLetter(b[k])
  {
    if |a| == |b| && forall k :: 0 <= k < |a| ==> UpperAscii(a[k]) == UpperAscii(b[k]) {
      assert forall k :: 0 <= k < |a| ==> Fold(a)[k] == Fold(b)[k];
      assert Fold(a) == Fold(b);
    }
    if EqualsIgnoreCase(a, b) {
      assert |Fold(a)| == |a| && |Fold(b)| == |b|;
      forall k | 0 <= k < |a|
        ensures UpperAscii(a[k]) == UpperAscii(b[k])
      {
        assert Fold(a)[k] == Fold(b)[k];
      }
    }
  }

  // ---------------------------------------------------------------------------
  // Decimal digits: Int32.ToString for non-negative values and Int32.TryParse

  const Int32Min: int := -0x8000_0000
  const Int32Max: int := 0x7FFF_FFFF

  predicate IsDigit(c: char) { '0' <= c <= '9' }

  predicate AllDigits(s: string) { forall k :: 0 <= k < |s| ==> IsDigit(s[k]) }

  function DigitChar(d: nat): (c: char)
    requires d < 10
    ensures IsDigit(c) && c as int - '0' as int == d
  {
    ('0' as int + d) as char
  }

  /** The decimal representation of n, without sign or leading zeros. */
  function NatToString(n: nat): (s: string)
    ensures |s| >= 1 && AllDigits(s)
    ensures |s| > 1 ==> s[0] != '0'
    decreases n
  {
    if n < 10 then [DigitChar(n)] else NatToString(n / 10) + [DigitChar(n % 10)]
  }

  /** The value of a string of decimal digits. */
  function DigitsValue(s: string): nat
    requires AllDigits(s)
  {
    if |s| == 0 then 0 else DigitsValue(s[..|s| - 1]) * 10 + (s[|s| - 1] as int - '0' as int)
  }

  /** The text after an optional leading '+' or '-'. */
  function Unsigned(s: string): (t: string)
    ensures |t| <= |s| && t == s[|s| - |t|..]
  {
    if |s| > 0 && (s[0] == '-' || s[0] == '+') then s[1..] else s
  }

  /** The value a signed numeral denotes. */
  function SignedValue(s: string): int
    requires AllDigits(Unsigned(s))
  {
    if |s| > 0 && s[0] == '-' then 0 - DigitsValue(Unsigned(s)) else DigitsValue(Unsigned(s))
  }

  /** The text without its trailing run of U+0000 characters, which the .NET
      number parser accepts after a numeral. */
  function WithoutTrailingNuls(s: string): (t: string)
    ensures |t| <= |s|
  {
    if |s| > 0 && s[|s| - 1] == '\0' then WithoutTrailingNuls(s[..|s| - 1]) else s
  }

  /** Only the trailing U+0000 characters are cut: what is left is a prefix
      of the text that does not end in U+0000, and everything after it is
      U+0000. */
  lemma {:induction false} WithoutTrailingNulsIsPrefix(s: string)
    ensures var t := WithoutTrailingNuls(s);
            t == s[..|t|] && (t == [] || t[|t| - 1] != '\0')
            && forall k :: |t| <= k < |s| ==> s[k] == '\0'
    decreases |s|
  {
    if |s| > 0 && s[|s| - 1] == '\0' {
      var p := s[..|s| - 1];
      WithoutTrailingNulsIsPrefix(p);
      var t := WithoutTrailingNuls(p);
      assert t == p[..|t|] == s[..|t|];
      forall k | |t| <= k < |s|
        ensures s[k] == '\0'
      {
        if k < |p| { assert s[k] == p[k]; }
      }
    }
  }

  /** Int32.TryParse on already trimmed text: an optional '+' or '-' sign
      followed by one or more ASCII digits (leading zeros allowed), whose value
      lies in the 32-bit range, then any number of U+0000 characters; anything
      else fails. */
  function ParseInt32(s: string): (r: Option<int>)
    ensures var n := WithoutTrailingNuls(s);
            r.Some? <==> |Unsigned(n)| > 0 && AllDigits(Unsigned(n)) && Int32Min <= SignedValue(n) <= Int32Max
    ensures r.Some? ==> r.value == SignedValue(WithoutTrailingNuls(s)) && Int32Min <= r.value <= Int32Max
  {
    var numeral := WithoutTrailingNuls(s);
    var digits := Unsigned(numeral);
    if |digits| == 0 || !AllDigits(digits) then None
    else
      var v := SignedValue(numeral);
      if Int32Min <= v <= Int32Max then Some(v) else None
  }

  /** Accepted text starts with a digit or a sign: no leading white space,
      letters or U+0000. */
  lemma ParsedStartsWithSignOrDigit(s: string)
    requires ParseInt32(s).Some?
    ensures s != [] && (IsDigit(s[0]) || s[0] == '+' || s[0] == '-')
  {
    var n := WithoutTrailingNuls(s);
    WithoutTrailingNulsIsPrefix(s);
    assert n[0] == s[0];
  }

  /** A run of n U+0000 characters. */
  function Nuls(n: nat): (z: string)
    ensures |z| == n
  {
    seq(n, _ => '\0')
  }

  /** Trailing U+0000 characters after a digit are dropped, and nothing else is. */
  lemma {:induction false} WithoutNulsAfterDigit(u: string, nuls: nat)
    requires u != [] && IsDigit(u[|u| - 1])
    ensures WithoutTrailingNuls(u + Nuls(nuls)) == u
    decreases nuls
  {
    if nuls == 0 {
      assert u + Nuls(0) == u;
    } else {
      var s := u + Nuls(nuls);
      assert s[|s| - 1] == '\0';
      assert s[..|s| - 1] == u + Nuls(nuls - 1);
      WithoutNulsAfterDigit(u, nuls - 1);
    }
  }

  /** A run of n zero digits. */
  function Zeros(n: nat): (z: string)
    ensures |z| == n && AllDigits(z)
  {
    seq(n, _ => '0')
  }

  /** Leading zeros do not change the value of a numeral. */
  lemma {:induction false} DigitsValueOfZeros(n: nat, t: string)
    requires AllDigits(t)
    ensures AllDigits(Zeros(n) + t) && DigitsValue(Zeros(n) + t) == DigitsValue(t)
    decreases |t| + n
  {
    var s := Zeros(n) + t;
    assert AllDigits(s) by {
      forall k | 0 <= k < |s| ensures IsDigit(s[k]) {
        if k < n { assert s[k] == Zeros(n)[k]; } else { assert s[k] == t[k - n]; }
      }
    }
    if |t| > 0 {
      assert s[..|s| - 1] == Zeros(n) + t[..|t| - 1];
      DigitsValueOfZeros(n, t[..|t| - 1]);
    } else if n > 0 {
      assert s[..|s| - 1] == Zeros(n - 1) + [];
      DigitsValueOfZeros(n - 1, []);
    }
  }

  /** int.TryParse accepts an explicit '+', a '-', leading zeros and trailing
      U+0000 characters: "+2", "02", "-1" and "2\0" read as 2, 2, -1 and 2. */
  lemma ParsePaddedNumeral(sign: string, zeros: nat, n: nat, nuls: nat)
    requires sign == "" || sign == "+" || sign == "-"
    requires n <= Int32Max
    ensures ParseInt32((sign + (Zeros(zeros) + NatToString(n))) + Nuls(nuls)) == Some(if sign == "-" then 0 - n else n)
  {
    var u := Zeros(zeros) + NatToString(n);
    assert AllDigits(u) && DigitsValue(u) == n && |u| > 0 by {
      DigitsValueOfNatToString(n);
      DigitsValueOfZeros(zeros, NatToString(n));
    }
    ParseSignedDigits(sign, u, nuls, if sign == "-" then 0 - n else n);
  }

  /** A sign, a run of digits in range and trailing U+0000 characters parse
      to the signed value of the digits. */
  lemma ParseSignedDigits(sign: string, u: string, nuls: nat, v: int)
    requires sign == "" || sign == "+" || sign == "-"
    requires |u| > 0 && AllDigits(u) && DigitsValue(u) <= Int32Max
    requires v == if sign == "-" then 0 - DigitsValue(u) else DigitsValue(u)
    ensures ParseInt32((sign + u) + Nuls(nuls)) == Some(v)
  {
    UnsignedAfterSign(sign, u);
    NulsAfterSignedDigits(sign, u, nuls);
    ParseOfNumeral((sign + u) + Nuls(nuls), sign + u, v);
  }

  lemma NulsAfterSignedDigits(sign: string, u: string, nuls: nat)
    requires u != [] && IsDigit(u[|u| - 1])
    ensures WithoutTrailingNuls((sign + u) + Nuls(nuls)) == sign + u
  {
    assert (sign + u)[|sign + u| - 1] == u[|u| - 1];
    WithoutNulsAfterDigit(sign + u, nuls);
  }

  lemma ParseOfNumeral(s: string, t: string, v: int)
    requires WithoutTrailingNuls(s) == t
    requires |Unsigned(t)| > 0 && AllDigits(Unsigned(t)) && SignedValue(t) == v && Int32Min <= v <= Int32Max
    ensures ParseInt32(s) == Some(v)
  {
  }

  lemma UnsignedAfterSign(sign: string, u: string)
    requires sign == "" || sign == "+" || sign == "-"
    requires u != [] && IsDigit(u[0])
    ensures Unsigned(sign + u) == u
    ensures (|sign + u| > 0 && (sign + u)[0] == '-') <==> sign == "-"
  {
    if sign == "" {
      assert sign + u == u;
    } else {
      assert (sign + u)[1..] == u;
    }
  }

  lemma {:induction false} DigitsValueOfNatToString(n: nat)
    ensures DigitsValue(NatToString(n)) == n
    decreases n
  {
    var s := NatToString(n);
    if n >= 10 {
      DigitsValueOfNatToString(n / 10);
      assert s[..|s| - 1] == NatToString(n / 10);
    }
  }

  /** Int32.TryParse reads back what ToString wrote, for every count a
      list can have. */
  lemma ParseNatToString(n: nat)
    requires n <= Int32Max
    ensures ParseInt32(NatToString(n)) == Some(n)
  {
    var s := NatToString(n);
    assert WithoutTrailingNuls(s) == s && Unsigned(s) == s by {
      assert IsDigit(s[0]) && IsDigit(s[|s| - 1]);
    }
    assert DigitsValue(s) == n by {
      DigitsValueOfNatToString(n);
    }
    ParseOfNumeral(s, s, n);
  }

  /** Distinct numbers are written differently. */
  lemma NatToStringInjective(a: nat, b: nat)
    requires NatToString(a) == NatToString(b)
    ensures a == b
  {
    DigitsValueOfNatToString(a);
    DigitsValueOfNatToString(b);
  }
}
