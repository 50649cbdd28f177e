/**
 * The list view's own date handling and the filter that decides which records
 * are shown.
 */
module EmployeeList {
  import opened Wrappers
  import opened Sequences
  import opened Strings
  import opened Dates
  import Store = EmployeeSlice

  /** What the birthday column shows for a birthday it cannot read. */
  const NotAvailable := "Н/Д"

  /** A date from numeric year, month and day fields, if month and day are in range. */
  function DateOf(year: string, month: string, day: string): (d: Option<CivilDate>)
    requires AllDigits(year) && AllDigits(month) && AllDigits(day)
    requires |year| == 4
    ensures d.Some? ==> ValidMonthDay(d.value.month, d.value.day) && 100 <= d.value.year <= 9999
  {
    var y, m, dd := NumberValue(year), NumberValue(month), NumberValue(day);
    assert Pow10(4) == 10000;
    if ValidMonthDay(m, dd) then Some(CivilDate(FullYear(y), m, dd)) else None
  }

  /** The `YYYY-MM-DD` format. */
  function ParseIso(s: string): Option<CivilDate> {
    if |s| == 10 && s[4] == '-' && s[7] == '-' &&
       AllDigits(s[..4]) && AllDigits(s[5..7]) && AllDigits(s[8..])
    then DateOf(s[..4], s[5..7], s[8..])
    else None
  }

  /** The `DD.MM.YYYY` format. */
  function ParseDotted(s: string): Option<CivilDate> {
    if |s| == 10 && s[2] == '.' && s[5] == '.' &&
       AllDigits(s[..2]) && AllDigits(s[3..5]) && AllDigits(s[6..])
    then DateOf(s[6..], s[3..5], s[..2])
    else None
  }

  /** The list view's birthday parser: nothing for "", else `YYYY-MM-DD`, else `DD.MM.YYYY`. */
  function ParseBirthday(birthday: string): (d: Option<CivilDate>)
    ensures birthday == "" ==> d == None
    ensures ParseIso(birthday).Some? ==> d == ParseIso(birthday)
    ensures ParseIso(birthday).None? ==> d == ParseDotted(birthday)
    ensures d.Some? ==> ValidMonthDay(d.value.month, d.value.day) && 100 <= d.value.year <= 9999
  {
    if birthday == "" then None
    else if ParseIso(birthday).Some? then ParseIso(birthday)
    else ParseDotted(birthday)
  }

  /** The birthday column: `DD.MM.YYYY`, or "Н/Д" when the birthday cannot be read. */
  function FormatDate(birthday: string): (r: string)
    ensures r == NotAvailable <==> ParseBirthday(birthday).None?
    ensures ParseBirthday(birthday).Some? ==> |r| == 10 && r[2] == '.' && r[5] == '.'
  {
    match ParseBirthday(birthday)
    case None => NotAvailable
    case Some(d) => Pad(d.day, 2) + "." + Pad(d.month, 2) + "." + Pad(d.year, 4)
  }

  /** Reading back a displayed birthday gives the date it was formatted from. */
  lemma FormatDateRoundTrip(birthday: string)
    ensures ParseBirthday(FormatDate(birthday)) == ParseBirthday(birthday)
  {
    if ParseBirthday(birthday).None? {
      assert |NotAvailable| == 3;
      return;
    }
    var d := ParseBirthday(birthday).value;
    var dd, mm, yyyy := Pad(d.day, 2), Pad(d.month, 2), Pad(d.year, 4);
    var r := FormatDate(birthday);
    assert Pow10(2) == 100 && Pow10(4) == 10000;
    assert r == dd + "." + mm + "." + yyyy;
    assert r[..2] == dd && r[3..5] == mm && r[6..] == yyyy;
    assert IsDigit(r[4]);
    assert ParseIso(r) == None;
  }

  /** `calculateAge`: whole years from the birthday to `today`, 0 for an unreadable birthday. */
  function CalculateAge(birthday: string, today: CivilDate): (age: int)
    ensures ParseBirthday(birthday).None? ==> age == 0
  {
    match ParseBirthday(birthday)
    case None => 0
    case Some(b) =>
      var age := today.year - b.year;
      var m := today.month - b.month;
      if m < 0 || (m == 0 && today.day < b.day) then age - 1 else age
  }

  /** The birthday `years` years after `b`. */
  function Anniversary(b: CivilDate, years: int): CivilDate {
    CivilDate(b.year + years, b.month, b.day)
  }

  /** The age counts the anniversaries reached by `today`: the last is not after today, the next is. */
  lemma AgeCountsAnniversaries(birthday: string, today: CivilDate)
    requires ParseBirthday(birthday).Some?
    ensures var b := ParseBirthday(birthday).value;
            var age := CalculateAge(birthday, today);
            !Before(today, Anniversary(b, age)) && Before(today, Anniversary(b, age + 1))
  {
  }

  predicate RoleMatches(f: Store.Filters, e: Store.Employee) {
    if f.role != "" then e.role == f.role else true
  }

  predicate StatusMatches(f: Store.Filters, e: Store.Employee) {
    e.isArchive == f.isArchive
  }

  predicate BirthdayMatches(f: Store.Filters, e: Store.Employee) {
    match f.birthdayMonth
    case None => true
    case Some(m) =>
      match ParseBirthday(e.birthday)
      case None => false
      case Some(d) => d.month == m
  }

  /**
   * The record is shown under the filters: a set role must match, the archive
   * flag must equal the filter's and a set month must be the birthday's.
   */
  function Shown(f: Store.Filters, e: Store.Employee): (b: bool)
    ensures b ==> (f.role == "" || e.role == f.role) && e.isArchive == f.isArchive
    ensures b && f.birthdayMonth.Some? ==>
      ParseBirthday(e.birthday).Some? && ParseBirthday(e.birthday).value.month == f.birthdayMonth.value
    ensures f == Store.DefaultFilters ==> (b <==> !e.isArchive)
  {
    RoleMatches(f, e) && StatusMatches(f, e) && BirthdayMatches(f, e)
  }

  /** `filteredList`: the records shown, in list order. */
  function FilteredList(list: seq<Store.Employee>, f: Store.Filters): (r: seq<Store.Employee>)
    ensures IsSubsequence(r, list)
    ensures forall e :: e in r <==> e in list && Shown(f, e)
    ensures forall e :: multiset(r)[e] == if Shown(f, e) then multiset(list)[e] else 0
  {
    var p := (e: Store.Employee) => Shown(f, e);
    FilterIsSubsequence(p, list);
    FilterCount(p, list);
    Filter(p, list)
  }

  /** An empty role filter admits every role; a non-empty one admits only that role. */
  lemma RoleFilter(list: seq<Store.Employee>, f: Store.Filters)
    ensures f.role != "" ==> forall e :: e in FilteredList(list, f) ==> e.role == f.role
    ensures f.role == "" ==> forall e :: e in FilteredList(list, f) <==>
      e in list && StatusMatches(f, e) && BirthdayMatches(f, e)
  {
  }

  /** The archive flag must equal the filter's; the default filters hide every archived record. */
  lemma ArchiveFilter(list: seq<Store.Employee>, f: Store.Filters)
    ensures forall e :: e in FilteredList(list, f) ==> e.isArchive == f.isArchive
    ensures forall e :: e in FilteredList(list, Store.DefaultFilters) <==> e in list && !e.isArchive
  {
  }

  /** A month filter keeps only readable birthdays in that month; without one birthdays do not matter. */
  lemma MonthFilter(list: seq<Store.Employee>, f: Store.Filters)
    ensures f.birthdayMonth.Some? ==> forall e :: e in FilteredList(list, f) ==>
      ParseBirthday(e.birthday).Some? && ParseBirthday(e.birthday).value.month == f.birthdayMonth.value
    ensures f.birthdayMonth.None? ==> forall e :: e in FilteredList(list, f) <==>
      e in list && RoleMatches(f, e) && StatusMatches(f, e)
    ensures f.birthdayMonth.Some? && !(1 <= f.birthdayMonth.value <= 12) ==> FilteredList(list, f) == []
  {
    var r := FilteredList(list, f);
    assert r != [] ==> r[0] in r;
  }

  // ------------------------------------------- the two birthday parsers

  /**
   * A `YYYY-MM-DD` birthday, the form the date input produces, is read by the
   * list view but is unparsable for the store's sort.
   */
  lemma IsoBirthdayOnlyReadByList(birthday: string)
    requires ParseIso(birthday).Some?
    ensures ParseBirthday(birthday) == ParseIso(birthday)
    ensures Store.ParseBirthday(birthday) == None
  {
    forall i | 0 <= i < |birthday| ensures birthday[i] != '.' {
      if i < 4 {
        assert birthday[i] == birthday[..4][i];
      } else if 4 < i < 7 {
        assert birthday[i] == birthday[5..7][i - 5];
      } else if 7 < i {
        assert birthday[i] == birthday[8..][i - 8];
      }
    }
    Store.UndottedBirthdayUnparsable(birthday);
  }

  /**
   * So, sorting by birthday, a `YYYY-MM-DD` record goes before any record the
   * store can read when ascending, and after it when descending.
   */
  lemma IsoBirthdaySortsFirst(a: Store.Employee, b: Store.Employee)
    requires ParseIso(a.birthday).Some? && Store.ParseBirthday(b.birthday).Some?
    ensures Store.Order("birthday", Store.Asc, a, b) < 0
    ensures Store.Order("birthday", Store.Desc, a, b) > 0
  {
    IsoBirthdayOnlyReadByList(a.birthday);
  }

  /** Against a record the store cannot read either, a `YYYY-MM-DD` record ties in both directions. */
  lemma IsoBirthdayTiesUnreadable(a: Store.Employee, c: Store.Employee, dir: Store.Direction)
    requires ParseIso(a.birthday).Some? && Store.ParseBirthday(c.birthday).None?
    ensures Store.Order("birthday", dir, a, c) == 0
  {
    IsoBirthdayOnlyReadByList(a.birthday);
  }

  /**
   * Two records, one with a `YYYY-MM-DD` birthday in 1990 and one with a
   * `DD.MM.YYYY` birthday in 1985: sorting by birthday ascending keeps the
   * 1990 record first, because the store cannot read its birthday.
   */
  lemma MixedFormatBirthdaySort()
    ensures var ivanov := Store.Employee(1, "Иванов", "", "1990-05-10", "Повар", false);
            var petrov := Store.Employee(2, "Петров", "", "15.03.1985", "Водитель", false);
            Store.SortList("birthday", Store.Asc, [ivanov, petrov]) == [ivanov, petrov] &&
            Store.SortList("birthday", Store.Asc, [petrov, ivanov]) == [ivanov, petrov]
  {
    var ivanov := Store.Employee(1, "Иванов", "", "1990-05-10", "Повар", false);
    var petrov := Store.Employee(2, "Петров", "", "15.03.1985", "Водитель", false);
    IsoExample();
    DottedExample();
    IsoBirthdaySortsFirst(ivanov, petrov);
    Store.TwoRecordSort("birthday", Store.Asc, ivanov, petrov);
  }

  lemma IsoExample()
    ensures ParseIso("1990-05-10") == Some(CivilDate(1990, 5, 10))
  {
    var s := "1990-05-10";
    IsoPieces();
    NumeralValues();
    assert AllDigits(s[..4]) && AllDigits(s[5..7]) && AllDigits(s[8..]);
    assert DateOf("1990", "05", "10") == Some(CivilDate(1990, 5, 10));
  }

  lemma IsoPieces()
    ensures var s := "1990-05-10";
            |s| == 10 && s[4] == '-' && s[7] == '-' &&
            s[..4] == "1990" && s[5..7] == "05" && s[8..] == "10"
  {
  }

  lemma DottedExample()
    ensures Store.ParseBirthday("15.03.1985") == Some(CivilDate(1985, 3, 15))
  {
    SplitExample();
    NumeralValues();
    DottedNumerals();
    Store.ParseBirthdayOfPieces("15.03.1985", "15", "03", "1985");
  }

  lemma DottedNumerals()
    ensures IsNumeral("15") && IsNumeral("03") && IsNumeral("1985")
  {
  }

  lemma SplitExample()
    ensures Split("15.03.1985", '.') == ["15", "03", "1985"]
  {
    SplitWithoutSeparator("1985", '.');
    SplitAround("03", "1985", '.');
    SplitAround("15", "03.1985", '.');
    DottedPieces();
  }

  lemma DottedPieces()
    ensures "03" + ['.'] + "1985" == "03.1985"
    ensures "15" + ['.'] + "03.1985" == "15.03.1985"
  {
  }

  lemma NumeralValues()
    ensures NumberValue("1990") == 1990 && NumberValue("1985") == 1985
    ensures NumberValue("05") == 5 && NumberValue("10") == 10
    ensures NumberValue("03") == 3 && NumberValue("15") == 15
  {
    NumberValueSnoc("", '1'); assert "" + ['1'] == "1";
    NumberValueSnoc("1", '9'); assert "1" + ['9'] == "19";
    NumberValueSnoc("19", '9'); assert "19" + ['9'] == "199";
    NumberValueSnoc("199", '0'); assert "199" + ['0'] == "1990";
    NumberValueSnoc("19", '8'); assert "19" + ['8'] == "198";
    NumberValueSnoc("198", '5'); assert "198" + ['5'] == "1985";
    NumberValueSnoc("", '0'); assert "" + ['0'] == "0";
    NumberValueSnoc("0", '5'); assert "0" + ['5'] == "05";
    NumberValueSnoc("0", '3'); assert "0" + ['3'] == "03";
    NumberValueSnoc("1", '0'); assert "1" + ['0'] == "10";
    NumberValueSnoc("1", '5'); assert "1" + ['5'] == "15";
  }
}
