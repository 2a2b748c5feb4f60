/** Name checks of the record-set resource: whether a name is fully
    qualified, and the validators of the `zone` and `name` attributes. */
module Validators {

  /** The number of backslashes `s` ends with. */
  function TrailingBackslashes(s: string): (n: nat)
    ensures n <= |s|
    ensures forall i :: |s| - n <= i < |s| ==> s[i] == '\\'
    ensures n < |s| ==> s[|s| - n - 1] != '\\'
  {
    if |s| > 0 && s[|s| - 1] == '\\' then TrailingBackslashes(s[..|s| - 1]) + 1 else 0
  }

  /** `IsFqdn` as intended: `s` ends in a dot that is not itself escaped,
      that is, one preceded by an even number of backslashes (none counts). */
  function IsFqdn(s: string): (b: bool)
    ensures b ==> |s| > 0 && s[|s| - 1] == '.'
    ensures |s| > 0 && s[|s| - 1] == '.' && TrailingBackslashes(s[..|s| - 1]) % 2 == 0 ==> b
  {
    |s| > 0 && s[|s| - 1] == '.' && TrailingBackslashes(s[..|s| - 1]) % 2 == 0
  }

  /** A dot right after a character other than a backslash always qualifies a name. */
  lemma PlainDotQualifies(s: string)
    requires |s| == 0 || s[|s| - 1] != '\\'
    ensures IsFqdn(s + ".")
  {
    assert (s + ".")[..|s|] == s;
  }

  /** One more backslash before the dot flips the answer: it escapes the dot
      or undoes the escape before it. */
  lemma {:induction false} BackslashFlips(s: string)
    ensures IsFqdn(s + "\\.") <==> !IsFqdn(s + ".")
  {
    assert (s + "\\.")[..|s| + 1] == s + "\\";
    assert (s + "\\")[..|s|] == s;
    assert (s + ".")[..|s|] == s;
  }

  /** Backslashes ending a text that follows a dot are not affected by what
      comes before the dot. */
  lemma {:induction false} TrailingAfterDot(p: string, t: string)
    ensures TrailingBackslashes(p + "." + t) == TrailingBackslashes(t)
  {
    var full := p + "." + t;
    if |t| > 0 {
      assert full[..|full| - 1] == p + "." + t[..|t| - 1];
      TrailingAfterDot(p, t[..|t| - 1]);
    } else {
      assert full[|full| - 1] == '.';
    }
  }

  /** Dropping the last character of a concatenation drops it from the second part. */
  lemma DropLast(a: string, b: string)
    requires |b| > 0
    ensures (a + b)[..|a + b| - 1] == a + b[..|b| - 1]
    ensures (a + b)[|a + b| - 1] == b[|b| - 1]
  {
  }

  /** Whatever precedes a dot does not decide whether the text after it is
      fully qualified. */
  lemma QualifiedAfterDot(p: string, t: string)
    requires t != ""
    ensures IsFqdn(p + "." + t) <==> IsFqdn(t)
  {
    var full := p + "." + t;
    var init := t[..|t| - 1];
    DropLast(p + ".", t);
    assert full[..|full| - 1] == p + "." + init;
    assert full[|full| - 1] == t[|t| - 1];
    TrailingAfterDot(p, init);
    assert TrailingBackslashes(full[..|full| - 1]) == TrailingBackslashes(init);
  }

  /** Examples: ".", "example.com." and `a\\.` are fully qualified;
      `a\.`, "example.com" and the empty name are not. */
  lemma IsFqdnExamples()
    ensures IsFqdn(".")
    ensures IsFqdn("example.com.")
    ensures IsFqdn("a\\\\.")
    ensures !IsFqdn("a\\.")
    ensures !IsFqdn("example.com")
    ensures !IsFqdn("")
  {
    assert "a\\\\."[..3] == "a\\\\";
    assert "a\\\\"[..2] == "a\\";
    assert "a\\\\"[..2][..1] == "a";
    assert "a\\."[..2] == "a\\";
    assert "a\\"[..1] == "a";
    assert "example.com."[..11] == "example.com";
  }

  // ---- `IsFqdn` as written: it measures in bytes of UTF-8 ----

  /** The number of bytes UTF-8 spends on `c`. */
  function Utf8Len(c: char): (n: nat)
    ensures 1 <= n <= 4
    ensures c == '\\' || c == '.' ==> n == 1
  {
    if c as int < 0x80 then 1
    else if c as int < 0x800 then 2
    else if c as int < 0x1_0000 then 3
    else 4
  }

  /** `len(s)`: the length of `s` in bytes. */
  function ByteLen(s: string): (n: nat)
    ensures n >= |s|
  {
    if |s| == 0 then 0 else ByteLen(s[..|s| - 1]) + Utf8Len(s[|s| - 1])
  }

  /** `strings.LastIndexFunc(s, r != '\\')`: the byte offset of the last
      character that is not a backslash, or -1 when there is none. */
  function LastNonBackslash(s: string): (i: int)
    ensures -1 <= i < ByteLen(s)
  {
    if |s| == 0 then -1
    else if s[|s| - 1] == '\\' then LastNonBackslash(s[..|s| - 1])
    else ByteLen(s[..|s| - 1])
  }

  /** `strings.TrimSuffix(s, ".")`. */
  function TrimDot(s: string): (t: string)
    ensures t == s <==> |s| == 0 || s[|s| - 1] != '.'
  {
    if |s| > 0 && s[|s| - 1] == '.' then s[..|s| - 1] else s
  }

  /** `IsFqdn` as the source writes it. The remainder is of a positive
      number, so Go's truncating `%` and Dafny's agree. */
  function IsFqdnAsWritten(s: string): (b: bool)
    ensures b ==> |s| > 0 && s[|s| - 1] == '.'
  {
    var s2 := TrimDot(s);
    if s == s2 then false else (ByteLen(s2) - LastNonBackslash(s2)) % 2 != 0
  }

  /** The byte distance the source computes is the number of trailing
      backslashes plus the width of the character before them (1 when none). */
  lemma {:induction false} ByteDistance(s: string)
    ensures TrailingBackslashes(s) == |s| ==> ByteLen(s) - LastNonBackslash(s) == |s| + 1
    ensures TrailingBackslashes(s) < |s| ==>
              ByteLen(s) - LastNonBackslash(s) == TrailingBackslashes(s) + Utf8Len(s[|s| - TrailingBackslashes(s) - 1])
  {
    if |s| > 0 && s[|s| - 1] == '\\' {
      var init := s[..|s| - 1];
      ByteDistance(init);
      if TrailingBackslashes(init) < |init| {
        assert init[|init| - TrailingBackslashes(init) - 1] == s[|s| - TrailingBackslashes(s) - 1];
      }
    }
  }

  /** The source agrees with the intent whenever the character before the
      trailing backslashes takes an odd number of bytes, or there is none. */
  lemma AsWrittenAgreesOnOddWidths(s: string)
    requires |s| > 0 && s[|s| - 1] == '.'
    requires var s2 := s[..|s| - 1];
             TrailingBackslashes(s2) == |s2| || Utf8Len(s2[|s2| - TrailingBackslashes(s2) - 1]) % 2 == 1
    ensures IsFqdnAsWritten(s) == IsFqdn(s)
  {
    ByteDistance(s[..|s| - 1]);
  }

  /** The discrepancy: "é." ends in an unescaped dot, yet the source's byte
      arithmetic (é takes two bytes) answers that it is not fully qualified. */
  lemma AsWrittenRejectsTwoByteLetter()
    ensures IsFqdn("\U{E9}.")
    ensures !IsFqdnAsWritten("\U{E9}.")
  {
    assert "\U{E9}."[..1] == "\U{E9}";
    assert "\U{E9}"[..0] == "";
  }

  /** On ASCII text every character is one byte, so the source's check is
      the intended one. */
  lemma AsWrittenAgreesOnAscii(s: string)
    requires forall i :: 0 <= i < |s| ==> s[i] as int < 0x80
    ensures IsFqdnAsWritten(s) == IsFqdn(s)
  {
    if |s| > 0 && s[|s| - 1] == '.' {
      var s2 := s[..|s| - 1];
      if TrailingBackslashes(s2) < |s2| {
        assert s2[|s2| - TrailingBackslashes(s2) - 1] == s[|s2| - TrailingBackslashes(s2) - 1];
      }
      AsWrittenAgreesOnOddWidths(s);
    }
  }

  // ---- the attribute validators ----

  /** A problem a validator reports about `value` of attribute `key`. */
  datatype Problem =
    | ZoneWhitespace(key: string, value: string)   // zone name must not contain whitespace
    | ZoneNotQualified(key: string, value: string) // zone name must be fully qualified
    | NameBlank(key: string, value: string)        // record name must not contain whitespace or be empty
    | NameQualified(key: string, value: string)    // record name must not be fully qualified

  /** Warnings and errors, as a schema validator returns them. */
  datatype Verdict = Verdict(warnings: seq<string>, errors: seq<Problem>)

  /** `validateZone`. `trimSpace` is `strings.TrimSpace`. */
  function ValidateZone(value: string, key: string, trimSpace: string -> string): (v: Verdict)
    ensures v.warnings == []
    ensures ZoneWhitespace(key, value) in v.errors <==> trimSpace(value) != value
    ensures ZoneNotQualified(key, value) in v.errors <==> !IsFqdn(value)
    ensures v.errors == [] <==> trimSpace(value) == value && IsFqdn(value)
    ensures |v.errors| == 2 ==> v.errors == [ZoneWhitespace(key, value), ZoneNotQualified(key, value)]
    ensures forall p :: p in v.errors ==> p.key == key && p.value == value && (p.ZoneWhitespace? || p.ZoneNotQualified?)
  {
    var whitespace := if trimSpace(value) != value then [ZoneWhitespace(key, value)] else [];
    var qualified := if !IsFqdn(value) then [ZoneNotQualified(key, value)] else [];
    Verdict([], whitespace + qualified)
  }

  /** `validateName`. */
  function ValidateName(value: string, key: string, trimSpace: string -> string): (v: Verdict)
    ensures v.warnings == []
    ensures NameBlank(key, value) in v.errors <==> trimSpace(value) != value || |value| == 0
    ensures NameQualified(key, value) in v.errors <==> IsFqdn(value)
    ensures v.errors == [] <==> |value| > 0 && trimSpace(value) == value && !IsFqdn(value)
    ensures |v.errors| == 2 ==> v.errors == [NameBlank(key, value), NameQualified(key, value)]
    ensures forall p :: p in v.errors ==> p.key == key && p.value == value && (p.NameBlank? || p.NameQualified?)
  {
    var blank := if trimSpace(value) != value || |value| == 0 then [NameBlank(key, value)] else [];
    var qualified := if IsFqdn(value) then [NameQualified(key, value)] else [];
    Verdict([], blank + qualified)
  }

  /** The validators use the corrected check; on ASCII values they report
      exactly what the source's byte-counting check makes them report. */
  lemma ValidatorsFollowSourceOnAscii(value: string, key: string, trimSpace: string -> string)
    requires forall i :: 0 <= i < |value| ==> value[i] as int < 0x80
    ensures ZoneNotQualified(key, value) in ValidateZone(value, key, trimSpace).errors <==> !IsFqdnAsWritten(value)
    ensures NameQualified(key, value) in ValidateName(value, key, trimSpace).errors <==> IsFqdnAsWritten(value)
  {
    AsWrittenAgreesOnAscii(value);
  }

  /** Where they part: the source rejects the zone "é." as not fully
      qualified and accepts it as a record name; the validators here do the
      opposite. */
  lemma ValidatorsDifferOnTwoByteLetter(key: string, trimSpace: string -> string)
    ensures ZoneNotQualified(key, "\U{E9}.") !in ValidateZone("\U{E9}.", key, trimSpace).errors
    ensures NameQualified(key, "\U{E9}.") in ValidateName("\U{E9}.", key, trimSpace).errors
    ensures !IsFqdnAsWritten("\U{E9}.")
  {
    AsWrittenRejectsTwoByteLetter();
  }
}
