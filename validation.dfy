/** The validator of the record form: three independent checks on the draft,
    each contributing one field-keyed message to the error map. */
module Validation {
  import opened Rows

  /** The keys of the error map. */
  datatype Field = Name | Date | Value

  const NameRequired: string := "Имя обязательно"
  const DateInvalid: string := "Некорректная дата"
  const ValueNotPositive: string := "Значение должно быть больше 0"

  /** The characters String.prototype.trim strips: ECMAScript WhiteSpace
      (tab, vertical tab, form feed, space, no-break space, the byte order mark
      and the Unicode space separators) and LineTerminator. */
  predicate IsWhitespace(c: char)
  {
    c == '\t' || c == '\U{000B}' || c == '\U{000C}' || c == ' ' || c == '\U{00A0}' || c == '\U{FEFF}'
    || c == '\U{1680}' || ('\U{2000}' <= c <= '\U{200A}') || c == '\U{202F}' || c == '\U{205F}' || c == '\U{3000}'
    || c == '\n' || c == '\r' || c == '\U{2028}' || c == '\U{2029}'
  }

  /** A string made of whitespace only (the empty string included). */
  predicate IsBlank(s: string)
  {
    forall i :: 0 <= i < |s| ==> IsWhitespace(s[i])
  }

  /** The string without its leading whitespace. */
  function TrimStart(s: string): (r: string)
    ensures |r| <= |s| && r == s[|s| - |r|..]
    ensures forall i :: 0 <= i < |s| - |r| ==> IsWhitespace(s[i])
    ensures r == [] || !IsWhitespace(r[0])
  {
    if s != [] && IsWhitespace(s[0]) then
      var r := TrimStart(s[1..]);
      assert forall i :: 1 <= i < |s| ==> s[i] == s[1..][i - 1];
      r
    else
      s
  }

  /** The string without its trailing whitespace. */
  function TrimEnd(s: string): (r: string)
    ensures |r| <= |s| && r == s[..|r|]
    ensures forall i :: |r| <= i < |s| ==> IsWhitespace(s[i])
    ensures r == [] || !IsWhitespace(r[|r| - 1])
  {
    if s != [] && IsWhitespace(s[|s| - 1]) then
      var r := TrimEnd(s[..|s| - 1]);
      assert forall i :: 0 <= i < |s| - 1 ==> s[i] == s[..|s| - 1][i];
      r
    else
      s
  }

  /** `r` is `s[a..b]`, and everything cut off on either side is whitespace. */
  predicate CutsOnlyWhitespace(s: string, r: string, a: int, b: int)
  {
    0 <= a <= b <= |s| && r == s[a..b]
    && (forall i :: 0 <= i < a ==> IsWhitespace(s[i]))
    && (forall i :: b <= i < |s| ==> IsWhitespace(s[i]))
  }

  /** A prefix of a suffix is a slice. */
  lemma PrefixOfSuffix(s: string, t: string, r: string, a: int)
    requires 0 <= a <= |s| && t == s[a..] && |r| <= |t| && r == t[..|r|]
    ensures a + |r| <= |s| && r == s[a..a + |r|]
  {
  }

  /** Whitespace after position |r| of a suffix t == s[a..] is whitespace of
      s after position a + |r|. */
  lemma CutTail(s: string, t: string, r: string, a: int)
    requires 0 <= a <= |s| && t == s[a..] && |r| <= |t|
    requires forall j :: |r| <= j < |t| ==> IsWhitespace(t[j])
    ensures forall i :: a + |r| <= i < |s| ==> IsWhitespace(s[i])
  {
    forall i | a + |r| <= i < |s|
      ensures IsWhitespace(s[i])
    {
      assert s[i] == t[i - a];
    }
  }

  /** Cutting the leading, then the trailing whitespace leaves a slice of the
      input whose two ends are not whitespace, with only whitespace cut off. */
  lemma TrimEndOfStart(s: string, r: string)
    requires r == TrimEnd(TrimStart(s))
    ensures exists a, b :: CutsOnlyWhitespace(s, r, a, b)
    ensures r == [] || (!IsWhitespace(r[0]) && !IsWhitespace(r[|r| - 1]))
  {
    var t := TrimStart(s);
    var a := |s| - |t|;
    PrefixOfSuffix(s, t, r, a);
    CutTail(s, t, r, a);
    assert CutsOnlyWhitespace(s, r, a, a + |r|);
    if r != [] {
      assert r[0] == t[0];
    }
  }

  /** String.prototype.trim: leading and trailing whitespace cut off. */
  function Trim(s: string): (r: string)
    ensures exists a, b :: CutsOnlyWhitespace(s, r, a, b)
    ensures r == [] || (!IsWhitespace(r[0]) && !IsWhitespace(r[|r| - 1]))
  {
    var r := TrimEnd(TrimStart(s));
    TrimEndOfStart(s, r);
    r
  }

  /** The name check of the validator: trimming leaves nothing exactly when the
      name is made of whitespace only. */
  lemma {:induction false} TrimEmptyIff(s: string)
    ensures Trim(s) == [] <==> IsBlank(s)
  {
    var t := TrimStart(s);
    if Trim(s) == [] {
      assert t == [];
    }
  }

  /** Whether the draft passes all three checks: a name that is not blank, a
      non-empty date that Date.parse accepts, a positive value. */
  predicate ValidDraft(d: Row, parseable: iset<string>)
  {
    !IsBlank(d.name) && d.date != "" && d.date in parseable && d.value > 0.0
  }

  /** The validator's verdict in its own terms: the trimmed name is non-empty,
      the date is non-empty and parses, and the value is positive. */
  lemma ValidDraftTrimForm(d: Row, parseable: iset<string>)
    ensures ValidDraft(d, parseable) <==> Trim(d.name) != "" && d.date != "" && d.date in parseable && d.value > 0.0
  {
    TrimEmptyIff(d.name);
  }

  /** The error map built by the validator: one entry per failing check,
      with that check's message, and nothing else. The name check is written
      with IsBlank; NameCheckIsTrim shows it is the source's "trim leaves
      nothing". */
  function ErrorsOf(d: Row, parseable: iset<string>): (errs: map<Field, string>)
    ensures Name in errs <==> IsBlank(d.name)
    ensures Date in errs <==> d.date == "" || d.date !in parseable
    ensures Value in errs <==> d.value <= 0.0
    ensures Name in errs ==> errs[Name] == NameRequired
    ensures Date in errs ==> errs[Date] == DateInvalid
    ensures Value in errs ==> errs[Value] == ValueNotPositive
    ensures errs == map[] <==> ValidDraft(d, parseable)
  {
    var e0: map<Field, string> := map[];
    var e1 := if IsBlank(d.name) then e0[Name := NameRequired] else e0;
    var e2 := if d.date == "" || d.date !in parseable then e1[Date := DateInvalid] else e1;
    var e3 := if d.value <= 0.0 then e2[Value := ValueNotPositive] else e2;
    assert e3 == map[] ==> Name !in e3 && Date !in e3 && Value !in e3;
    e3
  }

  /** The name entry is present exactly when trimming the name leaves the
      empty string. */
  lemma NameCheckIsTrim(d: Row, parseable: iset<string>)
    ensures Name in ErrorsOf(d, parseable) <==> Trim(d.name) == ""
  {
    TrimEmptyIff(d.name);
  }

  /** A draft that fails only the name check gets exactly the name message. */
  lemma OnlyNameError(d: Row, parseable: iset<string>)
    requires IsBlank(d.name) && d.date != "" && d.date in parseable && d.value > 0.0
    ensures ErrorsOf(d, parseable) == map[Name := NameRequired]
  {
    var errs := ErrorsOf(d, parseable);
    assert errs.Keys == {Name};
  }
}
