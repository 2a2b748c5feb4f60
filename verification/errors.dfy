/** The errors the client and the provider return, and the text each one prints. */
module Errors {

  datatype Error =
    | Missing(field: string)              // a required option was empty; nothing was run
    | RunFailed(message: string)          // the remote runner itself failed, returned unchanged
    | ExitStatus(code: int, stderr: string) // the remote script exited with a non-zero status
    | Malformed(message: string)          // standard output did not decode as an envelope
    | Rejected(detail: string)            // the envelope carried a code other than 200
    | Updating(cause: Error)              // a step of a record-set update failed
    | NoClient                            // the provider was used before it was configured
    | Connect(message: string)            // the remote-execution client could not be built

  predicate IsDigit(c: char) {
    '0' <= c <= '9'
  }

  function DigitChar(d: nat): (c: char)
    requires d < 10
    ensures IsDigit(c)
  {
    ['0', '1', '2', '3', '4', '5', '6', '7', '8', '9'][d]
  }

  /** The decimal digits of `n`, most significant first, without leading zeros. */
  function Digits(n: nat): (s: string)
    ensures |s| >= 1
    ensures forall i :: 0 <= i < |s| ==> IsDigit(s[i])
    ensures n < 10 <==> |s| == 1
  {
    if n < 10 then [DigitChar(n)] else Digits(n / 10) + [DigitChar(n % 10)]
  }

  /** The text `%d` prints for `n`. */
  function Decimal(n: int): (s: string)
    ensures |s| >= 1
    ensures forall i :: 0 <= i < |s| ==> IsDigit(s[i]) || (i == 0 && s[i] == '-')
    ensures s[0] == '-' <==> n < 0
  {
    if n < 0 then "-" + Digits(-n) else Digits(n)
  }

  lemma DigitCharInjective(a: nat, b: nat)
    requires a < 10 && b < 10
    requires DigitChar(a) == DigitChar(b)
    ensures a == b
  {
  }

  lemma {:induction false} DigitsInjective(a: nat, b: nat)
    requires Digits(a) == Digits(b)
    ensures a == b
  {
    if a < 10 && b < 10 {
      DigitCharInjective(a, b);
    } else if a >= 10 && b >= 10 {
      var da, db := Digits(a), Digits(b);
      assert da[|da| - 1] == DigitChar(a % 10);
      assert db[|db| - 1] == DigitChar(b % 10);
      DigitCharInjective(a % 10, b % 10);
      assert Digits(a / 10) == da[..|da| - 1];
      assert Digits(b / 10) == db[..|db| - 1];
      DigitsInjective(a / 10, b / 10);
    }
  }

  /** Distinct integers print distinctly. */
  lemma DecimalInjective(a: int, b: int)
    requires Decimal(a) == Decimal(b)
    ensures a == b
  {
    if a < 0 && b < 0 {
      assert Digits(-a) == ("-" + Digits(-a))[1..];
      assert Digits(-b) == ("-" + Digits(-b))[1..];
      DigitsInjective(-a, -b);
    } else if a >= 0 && b >= 0 {
      DigitsInjective(a, b);
    }
  }

  /** The text the error prints (`err.Error()`). */
  function Message(e: Error): (m: string)
    ensures e.Missing? ==> |m| > 16 + |e.field| && m[16..16 + |e.field|] == e.field
    ensures e.Updating? ==> |m| > |Message(e.cause)| && m[|m| - |Message(e.cause)|..] == Message(e.cause)
  {
    match e
    case Missing(field) => "required value \"" + field + "\" not spcified"
    case RunFailed(m) => m
    case ExitStatus(code, stderr) => "exit code " + Decimal(code) + ": " + stderr
    case Malformed(m) => m
    case Rejected(detail) => detail
    case Updating(cause) => "Error updating DNS record: " + Message(cause)
    case NoClient => "client not created"
    case Connect(m) => m
  }

  /** The separator after a shorter code lands on a character of a longer one. */
  lemma ShorterCodeDiffers(p: string, d1: string, s1: string, d2: string, s2: string)
    requires |d1| < |d2|
    requires forall i :: 0 <= i < |d2| ==> d2[i] != ':'
    ensures p + d1 + ": " + s1 != p + d2 + ": " + s2
  {
    var m1, m2 := p + d1 + ": " + s1, p + d2 + ": " + s2;
    assert m1[|p| + |d1|] == ':';
    assert m2[|p| + |d1|] == d2[|d1|];
  }

  /** An exit-status error's text carries both the exit code and the captured
      standard error: two such texts are equal only when both are. */
  lemma ExitMessageDeterminesCodeAndStderr(c1: int, s1: string, c2: int, s2: string)
    requires Message(ExitStatus(c1, s1)) == Message(ExitStatus(c2, s2))
    ensures c1 == c2 && s1 == s2
  {
    var p := "exit code ";
    var d1, d2 := Decimal(c1), Decimal(c2);
    var m1, m2 := p + d1 + ": " + s1, p + d2 + ": " + s2;
    assert m1 == m2;
    if |d1| < |d2| {
      ShorterCodeDiffers(p, d1, s1, d2, s2);
      assert false;
    } else if |d2| < |d1| {
      ShorterCodeDiffers(p, d2, s2, d1, s1);
      assert false;
    }
    assert d1 == m1[|p|..|p| + |d1|];
    assert d2 == m2[|p|..|p| + |d2|];
    DecimalInjective(c1, c2);
    assert s1 == m1[|p| + |d1| + 2..];
    assert s2 == m2[|p| + |d2| + 2..];
  }

  /** A missing-field text names the field: distinct fields print distinctly. */
  lemma MissingMessageNamesField(a: string, b: string)
    requires Message(Missing(a)) == Message(Missing(b))
    ensures a == b
  {
    var ma, mb := Message(Missing(a)), Message(Missing(b));
    assert ma[16..] == a + "\" not spcified";
    assert mb[16..] == b + "\" not spcified";
    assert |a| == |b|;
    assert a == ma[16..16 + |a|];
  }

  /** Wrapping a cause as an update error keeps its text: two update errors
      print alike exactly when their causes do. */
  lemma UpdatingMessageKeepsCause(a: Error, b: Error)
    ensures Message(Updating(a)) == Message(Updating(b)) <==> Message(a) == Message(b)
  {
    var p := "Error updating DNS record: ";
    if Message(Updating(a)) == Message(Updating(b)) {
      assert Message(a) == Message(Updating(a))[|p|..];
      assert Message(b) == Message(Updating(b))[|p|..];
    }
  }
}
