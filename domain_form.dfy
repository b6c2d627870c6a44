/** The add/edit dialog's form rules: the schema's name and expiration predicates, the
    calendar's disabled days, the digit mask of the date text field with the rule that
    turns its text into a date, and the submit-enable rule. The URL parser behind
    `new URL(...).hostname` is the parameter `hostnameOf` (`None` when it throws), and
    date-fns `parse(text, "yyyy-MM-dd")` with `isValid` is the parameter `parseDate`. */
module DomainForm {
  import opened Wrappers
  import opened Domains
  import Text
  import Seqs
  import Clock

  // ---------------------------------------------------------------- schema

  /** The `name` field of `domainFormSchema`. */
  function NameAccepted(value: string, hostnameOf: string -> Option<string>): (ok: bool)
    ensures value == "" || '.' !in value ==> !ok
    ensures !Text.Includes(value, "://") ==>
      (ok <==> '.' in value && hostnameOf("http://" + value) == Some(value))
    ensures Text.Includes(value, "://") ==>
      (ok <==> '.' in value && hostnameOf(value).Some?)
  {
    Text.IncludesChar(value, '.');
    var hasScheme := Text.Includes(value, "://");
    var hostname := hostnameOf(if hasScheme then value else "http://" + value);
    |value| >= 1 && hostname.Some? &&
    hostname.value == (if hasScheme then hostname.value else value) && Text.Includes(value, ".")
  }

  /** The `expirationDate` field: a valid date at or after the start of today. */
  function ExpirationAccepted(date: Option<int>, now: int, offset: int): (ok: bool)
    ensures ok <==> date.Some? && Clock.LocalDay(date.value, offset) >= Clock.LocalDay(now, offset)
  {
    if date.Some? then
      Clock.AtOrAfterStartOfDay(date.value, now, offset);
      date.value >= Clock.StartOfDay(now, offset)
    else false
  }

  /** The calendar's `disabled` predicate: before the start of today. */
  function CalendarDisabled(date: int, now: int, offset: int): (disabled: bool)
    ensures disabled <==> Clock.LocalDay(date, offset) < Clock.LocalDay(now, offset)
  {
    Clock.AtOrAfterStartOfDay(date, now, offset);
    date < Clock.StartOfDay(now, offset)
  }

  /** The calendar offers exactly the dates the schema accepts. */
  lemma CalendarMatchesSchema(date: int, now: int, offset: int)
    ensures CalendarDisabled(date, now, offset) <==> !ExpirationAccepted(Some(date), now, offset)
  {
  }

  // ---------------------------------------------------------------- date text mask

  /** `\d` */
  predicate IsDigit(c: char) {
    '0' <= c <= '9'
  }

  /** `value.replace(/[^\d]/g, "")` */
  function Digits(s: string): (r: string)
    ensures |r| <= |s|
    ensures forall i :: 0 <= i < |r| ==> IsDigit(r[i])
  {
    var r := Seqs.Filter(s, IsDigit);
    assert forall i :: 0 <= i < |r| ==> r[i] in r;
    r
  }

  /** The first eight digits of the input, the ones the mask keeps. */
  function KeptDigits(s: string): (r: string)
    ensures |r| <= 8
    ensures |r| == if |Digits(s)| <= 8 then |Digits(s)| else 8
    ensures r == Digits(s)[..|r|]
  {
    var ds := Digits(s);
    if |ds| <= 8 then ds else ds[..8]
  }

  /** At most eight digits laid out as `YYYY-MM-DD`, as far as they go. */
  function Layout(ds: string): (r: string)
    requires |ds| <= 8
    ensures |r| == |ds| + (if |ds| > 4 then 1 else 0) + (if |ds| > 6 then 1 else 0)
    ensures |ds| <= 4 ==> r == ds
    ensures |ds| > 4 ==> r[..4] == ds[..4] && r[4] == '-'
    ensures 4 < |ds| <= 6 ==> r[5..] == ds[4..]
    ensures |ds| > 6 ==> r[5..7] == ds[4..6] && r[7] == '-' && r[8..] == ds[6..]
  {
    if |ds| <= 4 then ds
    else if |ds| <= 6 then ds[..4] + "-" + ds[4..]
    else ds[..4] + "-" + ds[4..6] + "-" + ds[6..]
  }

  /** The text the date field shows after an edit that left `value` in it. */
  function Mask(value: string): (r: string)
    ensures |r| <= 10
    ensures forall i :: 0 <= i < |r| && i != 4 && i != 7 ==> IsDigit(r[i])
  {
    Layout(KeptDigits(value))
  }

  /** The mask keeps the first eight digits in order, drops everything else, and puts a
      hyphen after the fourth and the sixth digit when more digits follow. */
  lemma MaskShape(value: string)
    ensures var m := Mask(value); var n := |KeptDigits(value)|;
      |m| <= 10 &&
      |m| == n + (if n > 4 then 1 else 0) + (if n > 6 then 1 else 0) &&
      Digits(m) == KeptDigits(value) &&
      (n > 4 ==> m[4] == '-') && (n > 6 ==> m[7] == '-') &&
      (forall i :: 0 <= i < |m| && i != 4 && i != 7 ==> IsDigit(m[i])) &&
      (n <= 4 ==> m == KeptDigits(value))
  {
    LayoutDigits(KeptDigits(value));
  }

  /** Masking text the mask produced changes nothing. */
  lemma MaskIdempotent(value: string)
    ensures Mask(Mask(value)) == Mask(value)
  {
    var ds := KeptDigits(value);
    LayoutDigits(ds);
    assert Digits(Mask(value)) == ds;
    assert KeptDigits(Mask(value)) == ds;
  }

  /** The digits of a laid-out digit string are that string. */
  lemma LayoutDigits(ds: string)
    requires |ds| <= 8
    requires forall i :: 0 <= i < |ds| ==> IsDigit(ds[i])
    ensures Digits(Layout(ds)) == ds
  {
    if |ds| <= 4 {
      DigitsOfDigits(ds);
    } else if |ds| <= 6 {
      TwoGroupDigits(ds[..4], ds[4..]);
      assert ds[..4] + ds[4..] == ds;
    } else {
      ThreeGroupDigits(ds[..4], ds[4..6], ds[6..]);
      assert ds[..4] + ds[4..6] + ds[6..] == ds;
    }
  }

  lemma TwoGroupDigits(a: string, b: string)
    requires forall i :: 0 <= i < |a| ==> IsDigit(a[i])
    requires forall i :: 0 <= i < |b| ==> IsDigit(b[i])
    ensures Digits(a + "-" + b) == a + b
  {
    DigitsAcrossHyphen(a, b);
    DigitsOfDigits(a);
    DigitsOfDigits(b);
  }

  lemma ThreeGroupDigits(a: string, b: string, c: string)
    requires forall i :: 0 <= i < |a| ==> IsDigit(a[i])
    requires forall i :: 0 <= i < |b| ==> IsDigit(b[i])
    requires forall i :: 0 <= i < |c| ==> IsDigit(c[i])
    ensures Digits(a + "-" + b + "-" + c) == a + b + c
  {
    DigitsAcrossHyphen(a + "-" + b, c);
    TwoGroupDigits(a, b);
    DigitsOfDigits(c);
  }

  lemma DigitsOfDigits(ds: string)
    requires forall i :: 0 <= i < |ds| ==> IsDigit(ds[i])
    ensures Digits(ds) == ds
  {
    Seqs.FilterAll(ds, IsDigit);
  }

  /** A hyphen contributes no digit. */
  lemma DigitsAcrossHyphen(a: string, b: string)
    ensures Digits(a + "-" + b) == Digits(a) + Digits(b)
  {
    assert Seqs.Filter("-", IsDigit) == [] by {
      assert "-"[1..] == [];
    }
    Seqs.FilterConcat(a + "-", b, IsDigit);
    Seqs.FilterConcat(a, "-", IsDigit);
  }

  /** `/^\d{4}-\d{2}-\d{2}$/` */
  predicate DateShaped(s: string) {
    |s| == 10 && s[4] == '-' && s[7] == '-' &&
    forall i :: 0 <= i < 10 && i != 4 && i != 7 ==> IsDigit(s[i])
  }

  /** What the field's value becomes for the masked text: a date only for a complete
      `YYYY-MM-DD` that parses. */
  function FieldValue(masked: string, parseDate: string -> Option<int>): (d: Option<int>)
    ensures d.Some? ==> DateShaped(masked) && d == parseDate(masked)
    ensures DateShaped(masked) ==> d == parseDate(masked)
  {
    if masked == "" then None
    else if DateShaped(masked) then parseDate(masked)
    else None
  }

  /** The masked text is a complete date exactly when the input held eight digits or
      more; with fewer the field holds no date, whatever the parser does. */
  lemma CompleteDateIffEightDigits(value: string, parseDate: string -> Option<int>)
    ensures DateShaped(Mask(value)) <==> |Digits(value)| >= 8
    ensures |Digits(value)| < 8 ==> FieldValue(Mask(value), parseDate) == None
  {
    MaskShape(value);
  }

  /** The date field's `onChange`: the text it shows and the value it hands the form. */
  method OnDateInputChange(value: string, parseDate: string -> Option<int>) returns (formatted: string, fieldValue: Option<int>)
    ensures formatted == Mask(value)
    ensures fieldValue == FieldValue(formatted, parseDate)
  {
    var digits := Digits(value);
    formatted := "";
    if |digits| > 0 {
      formatted := Text.Substring(digits, 0, 4);
    }
    if |digits| > 4 {
      formatted := formatted + "-" + Text.Substring(digits, 4, 6);
    }
    if |digits| > 6 {
      formatted := formatted + "-" + Text.Substring(digits, 6, 8);
    }
    if formatted == "" {
      fieldValue := None;
    } else if DateShaped(formatted) {
      fieldValue := parseDate(formatted);
    } else {
      fieldValue := None;
    }
  }

  // ---------------------------------------------------------------- submit rule

  datatype FormValues = FormValues(name: string, expirationDate: Option<int>)

  /** The values `form.reset` installs when the dialog opens: the record's name and
      valid expiration when editing, empty values when adding. */
  function DefaultValues(initial: Option<Domain>): (v: FormValues)
    ensures initial.None? ==> v == FormValues("", None)
    ensures initial.Some? ==> v == FormValues(initial.value.name, initial.value.expirationDate)
  {
    if initial.Some? then FormValues(initial.value.name, initial.value.expirationDate)
    else FormValues("", None)
  }

  /** The submit button's `disabled` expression. */
  function SubmitDisabled(values: FormValues, initial: Option<Domain>, isPending: bool,
                          hostnameOf: string -> Option<string>, now: int, offset: int): (disabled: bool)
    ensures isPending ==> disabled
    ensures !NameAccepted(values.name, hostnameOf) ==> disabled
    ensures values == DefaultValues(initial) ==> disabled
  {
    var isValid := NameAccepted(values.name, hostnameOf) && ExpirationAccepted(values.expirationDate, now, offset);
    var isDirty := values != DefaultValues(initial);
    isPending || !isValid || (initial.Some? && !isDirty)
  }

  /** Submitting needs a valid form and no pending save, and an edit must change
      something; adding needs no change since the empty defaults are never valid. */
  lemma SubmitRule(values: FormValues, initial: Option<Domain>, isPending: bool,
                   hostnameOf: string -> Option<string>, now: int, offset: int)
    ensures !SubmitDisabled(values, initial, isPending, hostnameOf, now, offset) <==>
      !isPending && NameAccepted(values.name, hostnameOf) &&
      Clock.LocalDay(values.expirationDate.GetOr(0), offset) >= Clock.LocalDay(now, offset) &&
      values.expirationDate.Some? && values != DefaultValues(initial)
  {
  }
}
