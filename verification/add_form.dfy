/**
 * The add/edit form: the phone-number formatter, the field update on input
 * and the submit decision that dispatches to the store.
 */
module AddForm {
  import opened Sequences
  import opened Strings
  import opened EmployeeSlice

  // ---------------------------------------------------------------- phone

  /** The digits the formatter places after "+7": the 2nd to the 11th digit of the input. */
  function PlacedDigits(value: string): (rest: string)
    ensures AllDigits(rest) && |rest| <= 10
    ensures |Digits(value)| <= 1 ==> rest == ""
    ensures |Digits(value)| > 1 ==> rest == Digits(value)[1..Min(|Digits(value)|, 11)]
  {
    var d := Digits(value);
    if |d| <= 1 then "" else d[1..Min(|d|, 11)]
  }

  /** One group: `lead`, the placed digits `from`..`to` and `close`, once more than `from` digits are placed. */
  function Group(rest: string, from: nat, to: nat, lead: string, close: string): string
    requires from <= to
  {
    if |rest| > from then lead + rest[from..Min(|rest|, to)] + close else ""
  }

  /** The groups of the national format "(xxx) xxx-xx-xx" for up to ten placed digits. */
  function Groups(rest: string): string
    requires |rest| <= 10
  {
    Group(rest, 0, 3, " (", ")") + Group(rest, 3, 6, " ", "") +
    Group(rest, 6, 8, "-", "") + Group(rest, 8, 10, "-", "")
  }

  /** The phone field's content after an input of `value`. */
  function PhoneFormat(value: string): (r: string)
    ensures |r| >= 2 && r[..2] == "+7"
    ensures |Digits(value)| <= 1 ==> r == "+7"
  {
    "+7" + Groups(PlacedDigits(value))
  }

  lemma DigitsOfGroup(rest: string, from: nat, to: nat, lead: string, close: string)
    requires from <= to && AllDigits(rest)
    requires Digits(lead) == "" && Digits(close) == ""
    ensures Digits(Group(rest, from, to, lead, close)) == rest[Min(|rest|, from)..Min(|rest|, to)]
  {
    if |rest| > from {
      var piece := rest[from..Min(|rest|, to)];
      assert Digits(lead + piece) == piece by {
        DigitsAppend(lead, piece);
        DigitsOfDigits(piece);
      }
      DigitsAppend(lead + piece, close);
    } else {
      assert Digits("") == "";
    }
  }

  /** The only digits of the groups are the placed digits, in order. */
  lemma DigitsOfGroups(rest: string)
    requires |rest| <= 10 && AllDigits(rest)
    ensures Digits(Groups(rest)) == rest
  {
    var k := |rest|;
    var g1, g2 := Group(rest, 0, 3, " (", ")"), Group(rest, 3, 6, " ", "");
    var g3, g4 := Group(rest, 6, 8, "-", ""), Group(rest, 8, 10, "-", "");
    PunctuationHasNoDigits();
    DigitsOfGroup(rest, 0, 3, " (", ")");
    DigitsOfGroup(rest, 3, 6, " ", "");
    DigitsOfGroup(rest, 6, 8, "-", "");
    DigitsOfGroup(rest, 8, 10, "-", "");
    var m3, m6, m8 := Min(k, 3), Min(k, 6), Min(k, 8);
    DigitsAppend(g1, g2);
    SliceJoin(rest, 0, m3, m6);
    DigitsAppend(g1 + g2, g3);
    SliceJoin(rest, 0, m6, m8);
    DigitsAppend(g1 + g2 + g3, g4);
    SliceJoin(rest, 0, m8, k);
    assert rest[0..k] == rest;
  }

  lemma PunctuationHasNoDigits()
    ensures Digits(" (") == "" && Digits(")") == "" && Digits(" ") == "" && Digits("-") == ""
    ensures Digits("") == "" && Digits("+7") == "7"
  {
  }

  /**
   * One step of the formatter: the group it appends once the cleaned input has
   * more than `from + 1` digits is the group of the placed digits `from`..`to`.
   */
  lemma GroupStep(value: string, from: nat, to: nat, lead: string, close: string)
    requires from < to <= 10
    ensures var d := Digits(value);
            Group(PlacedDigits(value), from, to, lead, close) ==
            if |d| > from + 1 then lead + Slice(d, from + 1, to + 1) + close else ""
  {
    var d, rest := Digits(value), PlacedDigits(value);
    if |d| > from + 1 {
      var m := Min(|rest|, to);
      assert rest == d[1..Min(|d|, 11)];
      assert |rest| > from;
      assert m + 1 == Min(to + 1, |d|);
      assert rest[from..m] == d[from + 1..m + 1];
      assert Slice(d, from + 1, to + 1) == d[from + 1..m + 1];
    } else {
      assert |rest| <= from;
    }
  }

  /** The digits of the formatted number are "7" and then the placed digits. */
  lemma PhoneDigits(value: string)
    ensures Digits(PhoneFormat(value)) == "7" + PlacedDigits(value)
  {
    var rest := PlacedDigits(value);
    DigitsOfGroups(rest);
    DigitsAppend("+7", Groups(rest));
    PunctuationHasNoDigits();
  }

  /**
   * The formatted number is "+7" followed by the placed digits and nothing
   * else that is a digit; its length is fixed by how many digits were placed
   * and never exceeds 18.
   */
  lemma PhoneShape(value: string)
    ensures var rest := PlacedDigits(value);
            var k := |rest|;
            var r := PhoneFormat(value);
            Digits(r) == "7" + rest &&
            |r| == 2 + k + (if k > 0 then 3 else 0) + (if k > 3 then 1 else 0) +
                   (if k > 6 then 1 else 0) + (if k > 8 then 1 else 0) &&
            |r| <= 18
  {
    PhoneDigits(value);
  }

  /** With eleven or more digits the number is complete: "+7 (d1d2d3) d4d5d6-d7d8-d9d10". */
  lemma PhoneComplete(value: string)
    requires |Digits(value)| >= 11
    ensures var d := Digits(value);
            PhoneFormat(value) == "+7 (" + d[1..4] + ") " + d[4..7] + "-" + d[7..9] + "-" + d[9..11]
  {
    var d := Digits(value);
    var rest := PlacedDigits(value);
    assert rest == d[1..11];
    assert rest[..3] == d[1..4] && rest[3..6] == d[4..7] && rest[6..8] == d[7..9] && rest[8..] == d[9..11];
    assert Group(rest, 0, 3, " (", ")") == " (" + d[1..4] + ")";
    assert Group(rest, 3, 6, " ", "") == " " + d[4..7];
    assert Group(rest, 6, 8, "-", "") == "-" + d[7..9];
    assert Group(rest, 8, 10, "-", "") == "-" + d[9..11];
  }

  /** Formatting an already formatted number changes nothing. */
  lemma PhoneFormatIdempotent(value: string)
    ensures PhoneFormat(PhoneFormat(value)) == PhoneFormat(value)
  {
    var rest, r := PlacedDigits(value), PhoneFormat(value);
    PhoneDigits(value);
    var d := Digits(r);
    assert |d| == |rest| + 1 <= 11;
    assert d[1..] == rest;
    assert PlacedDigits(r) == rest;
    assert PhoneFormat(r) == "+7" + Groups(rest);
  }

  /** `handlePhoneChange`: reformat the input and store it as the phone. */
  method HandlePhoneChange(prev: Employee, value: string) returns (next: Employee)
    ensures next == prev.(phone := PhoneFormat(value))
  {
    var cleaned := Digits(value);
    ghost var rest := PlacedDigits(value);
    ghost var g1, g2 := Group(rest, 0, 3, " (", ")"), Group(rest, 3, 6, " ", "");
    ghost var g3, g4 := Group(rest, 6, 8, "-", ""), Group(rest, 8, 10, "-", "");
    GroupStep(value, 0, 3, " (", ")");
    GroupStep(value, 3, 6, " ", "");
    GroupStep(value, 6, 8, "-", "");
    GroupStep(value, 8, 10, "-", "");
    var formatted := "+7";
    if |cleaned| > 1 {
      formatted := formatted + (" (" + Slice(cleaned, 1, 4) + ")");
    }
    assert formatted == "+7" + g1;
    if |cleaned| > 4 {
      formatted := formatted + (" " + Slice(cleaned, 4, 7) + "");
    }
    Associative("+7", g1, g2);
    assert formatted == "+7" + (g1 + g2);
    if |cleaned| > 7 {
      formatted := formatted + ("-" + Slice(cleaned, 7, 9) + "");
    }
    Associative("+7", g1 + g2, g3);
    assert formatted == "+7" + (g1 + g2 + g3);
    if |cleaned| > 9 {
      formatted := formatted + ("-" + Slice(cleaned, 9, 11) + "");
    }
    Associative("+7", g1 + g2 + g3, g4);
    assert Groups(rest) == g1 + g2 + g3 + g4;
    assert formatted == "+7" + Groups(rest);
    next := prev.(phone := formatted);
  }

  // ---------------------------------------------------------- field input

  /** The form fields edited through text inputs and selects. */
  datatype TextField = NameField | PhoneField | BirthdayField | RoleField

  /** A change event: a text value for a named field, or a checkbox state for the archive flag. */
  datatype ChangeEvent = TextChange(field: TextField, value: string) | CheckboxChange(checked: bool)

  function FieldText(e: Employee, f: TextField): string {
    match f
    case NameField => e.name
    case PhoneField => e.phone
    case BirthdayField => e.birthday
    case RoleField => e.role
  }

  /** `handleChange`: set the named field, leave every other field as it was. */
  function ApplyChange(prev: Employee, ev: ChangeEvent): (next: Employee)
    ensures next.id == prev.id
    ensures ev.TextChange? ==>
      FieldText(next, ev.field) == ev.value && next.isArchive == prev.isArchive &&
      forall g :: g != ev.field ==> FieldText(next, g) == FieldText(prev, g)
    ensures ev.CheckboxChange? ==>
      next.isArchive == ev.checked && forall g :: FieldText(next, g) == FieldText(prev, g)
  {
    match ev
    case CheckboxChange(checked) => prev.(isArchive := checked)
    case TextChange(NameField, v) => prev.(name := v)
    case TextChange(PhoneField, v) => prev.(phone := v)
    case TextChange(BirthdayField, v) => prev.(birthday := v)
    case TextChange(RoleField, v) => prev.(role := v)
  }

  // --------------------------------------------------------------- submit

  /** What a submit dispatches to the store. */
  datatype Dispatch = Rejected | UpdateDispatched(employee: Employee) | AddDispatched(employee: Employee)

  /**
   * `handleSubmit`'s decision: a blank name dispatches nothing; with a route id
   * the form is sent as an update, otherwise it is added under the id `now`.
   */
  function SubmitDecision(form: Employee, routeId: string, now: int): (d: Dispatch)
    ensures d.Rejected? <==> IsBlank(form.name)
    ensures d.UpdateDispatched? <==> !IsBlank(form.name) && routeId != ""
    ensures d.UpdateDispatched? ==> d.employee == form
    ensures d.AddDispatched? ==> d.employee == form.(id := now)
  {
    TrimEmptyIffBlank(form.name);
    if Trim(form.name) == "" then Rejected
    else if routeId != "" then UpdateDispatched(form)
    else AddDispatched(form.(id := now))
  }

  /** `handleSubmit` with its dispatch: the store changes only when the decision is not a rejection. */
  method HandleSubmit(store: EmployeeStore, form: Employee, routeId: string, now: int)
    returns (d: Dispatch)
    modifies store`list, store`saved
    ensures d == SubmitDecision(form, routeId, now)
    ensures d.Rejected? ==> store.list == old(store.list) && store.saved == old(store.saved)
    ensures d.AddDispatched? ==> store.list == old(store.list) + [form.(id := now)] && store.saved == store.list
    ensures d.UpdateDispatched? ==>
      var k := FindIndex(old(store.list), form.id);
      if k == -1 then store.list == old(store.list) && store.saved == old(store.saved)
      else store.list == old(store.list)[k := form] && store.saved == store.list
  {
    d := SubmitDecision(form, routeId, now);
    match d
    case Rejected =>
    case UpdateDispatched(e) => store.UpdateEmployee(e);
    case AddDispatched(e) => store.AddEmployee(e);
  }
}
