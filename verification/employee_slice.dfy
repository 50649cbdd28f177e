/**
 * The employee store: the canonical employee list, the list-view filters and
 * the sort state, changed in place by the store's reducers.
 */
module EmployeeSlice {
  import opened Wrappers
  import opened Sequences
  import opened Strings
  import opened Dates

  datatype Employee = Employee(
    id: int,
    name: string,
    phone: string,
    birthday: string,
    role: string,
    isArchive: bool)

  datatype Filters = Filters(role: string, isArchive: bool, birthdayMonth: Option<int>)

  datatype Direction = Asc | Desc

  /** The criteria last sorted by and the direction that sort used. */
  datatype SortState = SortState(criteria: string, direction: Direction)

  const DefaultFilters := Filters("", false, None)

  /** The error text stored when a failed fetch carries no message. */
  const FetchErrorFallback := "Ошибка загрузки"

  function Flip(d: Direction): Direction { if d == Asc then Desc else Asc }

  // ---------------------------------------------------------------- identity

  /** The ids of `s`, position by position (`list.map(emp => emp.id)`). */
  function Ids(s: seq<Employee>): (ids: seq<int>)
    ensures |ids| == |s| && forall i :: 0 <= i < |s| ==> ids[i] == s[i].id
  {
    seq(|s|, i requires 0 <= i < |s| => s[i].id)
  }

  predicate UniqueIds(s: seq<Employee>) {
    forall i, j :: 0 <= i < j < |s| ==> s[i].id != s[j].id
  }

  /** `list.findIndex(emp => emp.id === id)`: the first position holding `id`, or -1. */
  function FindIndex(s: seq<Employee>, id: int): (k: int)
    ensures -1 <= k < |s|
    ensures k == -1 ==> forall j :: 0 <= j < |s| ==> s[j].id != id
    ensures k >= 0 ==> s[k].id == id && forall j :: 0 <= j < k ==> s[j].id != id
  {
    if s == [] then -1
    else if s[0].id == id then 0
    else
      var k := FindIndex(s[1..], id);
      if k == -1 then -1 else k + 1
  }

  /**
   * The records of a fetched payload whose id the list does not hold yet: an
   * order-preserving selection of the payload, exactly its records with unseen ids.
   */
  function NewRecords(list: seq<Employee>, payload: seq<Employee>): (r: seq<Employee>)
    ensures IsSubsequence(r, payload)
    ensures forall e :: e in r <==> e in payload && e.id !in Ids(list)
    ensures forall e :: multiset(r)[e] == if e.id !in Ids(list) then multiset(payload)[e] else 0
  {
    var existing := Ids(list);
    FilterIsSubsequence((e: Employee) => e.id !in existing, payload);
    FilterCount((e: Employee) => e.id !in existing, payload);
    Filter((e: Employee) => e.id !in existing, payload)
  }

  lemma {:induction false} FilterKeepsUniqueIds(p: Employee -> bool, s: seq<Employee>)
    requires UniqueIds(s)
    ensures UniqueIds(Filter(p, s))
  {
    if s != [] {
      var rest := s[1..];
      assert UniqueIds(rest) by {
        forall i, j | 0 <= i < j < |rest| ensures rest[i].id != rest[j].id {
          assert rest[i] == s[i + 1] && rest[j] == s[j + 1];
        }
      }
      FilterKeepsUniqueIds(p, rest);
      if p(s[0]) {
        var r := [s[0]] + Filter(p, rest);
        forall i, j | 0 <= i < j < |r| ensures r[i].id != r[j].id {
          if i == 0 {
            assert r[j] in rest;
            var k :| 0 <= k < |rest| && rest[k] == r[j];
            assert s[k + 1] == r[j];
          } else {
            assert r[i] == Filter(p, rest)[i - 1] && r[j] == Filter(p, rest)[j - 1];
          }
        }
      }
    }
  }

  /** Removing the record at `k` keeps ids unique and leaves no record with its id. */
  lemma RemoveKeepsUniqueIds(a: seq<Employee>, k: nat)
    requires k < |a| && UniqueIds(a)
    ensures UniqueIds(a[..k] + a[k + 1..])
    ensures forall e :: e in a[..k] + a[k + 1..] ==> e.id != a[k].id
  {
    var rest := a[..k] + a[k + 1..];
    forall i | 0 <= i < |rest| ensures rest[i] == a[if i < k then i else i + 1] {
    }
  }

  lemma RemoveFromPermutation(a: seq<Employee>, k: nat, b: seq<Employee>)
    requires k < |a| && b != [] && a[k] == b[0] && multiset(a) == multiset(b)
    ensures multiset(a[..k] + a[k + 1..]) == multiset(b[1..])
  {
    assert a == a[..k] + [a[k]] + a[k + 1..];
    assert b == [b[0]] + b[1..];
    assert multiset(a) == multiset(a[..k]) + multiset{a[k]} + multiset(a[k + 1..]);
    assert multiset(a[..k] + a[k + 1..]) == multiset(a) - multiset{a[k]};
    assert multiset(b[1..]) == multiset(b) - multiset{b[0]};
  }

  /** Reordering a list keeps its ids unique. */
  lemma {:induction false} PermutationKeepsUniqueIds(a: seq<Employee>, b: seq<Employee>)
    requires multiset(a) == multiset(b) && UniqueIds(a)
    ensures UniqueIds(b)
  {
    if b != [] {
      assert b[0] in multiset(a);
      var k :| 0 <= k < |a| && a[k] == b[0];
      var rest := a[..k] + a[k + 1..];
      RemoveFromPermutation(a, k, b);
      RemoveKeepsUniqueIds(a, k);
      PermutationKeepsUniqueIds(rest, b[1..]);
      forall i, j | 0 <= i < j < |b| ensures b[i].id != b[j].id {
        assert b[j] == b[1..][j - 1];
        if i == 0 {
          assert b[j] in multiset(rest);
        } else {
          assert b[i] == b[1..][i - 1];
        }
      }
    }
  }

  /** A fetch keeps ids unique when the list and the payload each have unique ids. */
  lemma FetchKeepsIdsUnique(list: seq<Employee>, payload: seq<Employee>)
    requires UniqueIds(list) && UniqueIds(payload)
    ensures UniqueIds(list + NewRecords(list, payload))
  {
    var added := NewRecords(list, payload);
    var existing := Ids(list);
    FilterKeepsUniqueIds((e: Employee) => e.id !in existing, payload);
    var r := list + added;
    forall i, j | 0 <= i < j < |r| ensures r[i].id != r[j].id {
      if j < |list| {
        assert r[i] == list[i] && r[j] == list[j];
      } else if i < |list| {
        assert r[j] == added[j - |list|] && r[j] in added;
      } else {
        assert r[i] == added[i - |list|] && r[j] == added[j - |list|];
      }
    }
  }

  /** A fetched record whose id is already held is dropped; the held copy stays as it was. */
  lemma FetchSkipsKnownIds()
    ensures var local := Employee(2, "Петров", "", "15.03.1985", "Водитель", false);
            var remote2 := Employee(2, "Петров П.", "", "", "Повар", true);
            var remote3 := Employee(3, "Сидоров", "", "", "Официант", false);
            [local] + NewRecords([local], [remote2, remote3]) == [local, remote3]
  {
    var local := Employee(2, "Петров", "", "15.03.1985", "Водитель", false);
    var remote2 := Employee(2, "Петров П.", "", "", "Повар", true);
    var remote3 := Employee(3, "Сидоров", "", "", "Официант", false);
    assert Ids([local]) == [2];
    assert [remote2, remote3][1..] == [remote3];
  }

  // ------------------------------------------------------------ comparator

  /**
   * The store's own birthday parser: split on ".", read day, month and year
   * from the first three pieces. Strings without three numeric pieces, or with
   * a month or day out of range, give no date.
   */
  function ParseBirthday(birthday: string): (d: Option<CivilDate>)
    ensures d.Some? ==> ValidMonthDay(d.value.month, d.value.day)
    ensures d.Some? ==> |Split(birthday, '.')| >= 3
    ensures d.Some? ==> var parts := Split(birthday, '.');
      IsNumeral(parts[0]) && IsNumeral(parts[1]) && IsNumeral(parts[2])
  {
    var parts := Split(birthday, '.');
    if |parts| < 3 || !IsNumeral(parts[0]) || !IsNumeral(parts[1]) || !IsNumeral(parts[2]) then None
    else
      var day, month, year := NumberValue(parts[0]), NumberValue(parts[1]), NumberValue(parts[2]);
      if ValidMonthDay(month, day) then Some(CivilDate(FullYear(year), month, day)) else None
  }

  lemma ParseBirthdayOfPieces(birthday: string, day: string, month: string, year: string)
    requires Split(birthday, '.') == [day, month, year]
    requires IsNumeral(day) && IsNumeral(month) && IsNumeral(year)
    requires ValidMonthDay(NumberValue(month), NumberValue(day))
    ensures ParseBirthday(birthday) ==
            Some(CivilDate(FullYear(NumberValue(year)), NumberValue(month), NumberValue(day)))
  {
  }

  /** A string with no "." (for one, every `YYYY-MM-DD` date) is unparsable for the store. */
  lemma UndottedBirthdayUnparsable(birthday: string)
    requires '.' !in birthday
    ensures ParseBirthday(birthday) == None
  {
    SplitWithoutSeparator(birthday, '.');
  }

  /** Code-point lexicographic order on names. */
  function CompareNames(a: string, b: string): (c: int)
    ensures -1 <= c <= 1
    ensures c == 0 <==> a == b
  {
    if a == [] && b == [] then 0
    else if a == [] then -1
    else if b == [] then 1
    else if a[0] < b[0] then -1
    else if a[0] > b[0] then 1
    else
      var c := CompareNames(a[1..], b[1..]);
      assert c == 0 ==> a == [a[0]] + a[1..] == [b[0]] + b[1..] == b;
      c
  }

  lemma {:induction false} CompareNamesAntisymmetric(a: string, b: string)
    ensures CompareNames(b, a) == -CompareNames(a, b)
  {
    if a != [] && b != [] && a[0] == b[0] {
      CompareNamesAntisymmetric(a[1..], b[1..]);
    }
  }

  lemma {:induction false} CompareNamesTransitive(a: string, b: string, c: string)
    requires CompareNames(a, b) <= 0 && CompareNames(b, c) <= 0
    ensures CompareNames(a, c) <= 0
  {
    if a != [] && b != [] && c != [] && a[0] == b[0] && b[0] == c[0] {
      CompareNamesTransitive(a[1..], b[1..], c[1..]);
    }
  }

  /** The birthday comparison: unparsable birthdays first and equal to each other, then by date. */
  function CompareBirthdays(a: string, b: string): (c: int)
    ensures -1 <= c <= 1
    ensures c == 0 <==> ParseBirthday(a) == ParseBirthday(b)
    ensures c < 0 <==>
      (ParseBirthday(a).None? && ParseBirthday(b).Some?) ||
      (ParseBirthday(a).Some? && ParseBirthday(b).Some? && Before(ParseBirthday(a).value, ParseBirthday(b).value))
    ensures c > 0 <==>
      (ParseBirthday(a).Some? && ParseBirthday(b).None?) ||
      (ParseBirthday(a).Some? && ParseBirthday(b).Some? && Before(ParseBirthday(b).value, ParseBirthday(a).value))
  {
    match (ParseBirthday(a), ParseBirthday(b))
    case (None, None) => 0
    case (None, Some(_)) => -1
    case (Some(_), None) => 1
    case (Some(x), Some(y)) => CompareDates(x, y)
  }

  /** The comparison the sort callback computes before applying the direction. */
  function Compare(criteria: string, a: Employee, b: Employee): (c: int)
    ensures -1 <= c <= 1
    ensures criteria != "name" && criteria != "birthday" ==> c == 0
  {
    if criteria == "name" then CompareNames(a.name, b.name)
    else if criteria == "birthday" then CompareBirthdays(a.birthday, b.birthday)
    else 0
  }

  /**
   * The sort callback: the comparison, negated for "desc". Descending is
   * ascending with the two records swapped, and ties are the same either way.
   */
  function Order(criteria: string, dir: Direction, a: Employee, b: Employee): (r: int)
    ensures -1 <= r <= 1
    ensures r == 0 <==> Compare(criteria, a, b) == 0
    ensures dir == Desc ==> r == Compare(criteria, b, a)
  {
    CompareNamesAntisymmetric(a.name, b.name);
    if dir == Asc then Compare(criteria, a, b) else -Compare(criteria, a, b)
  }

  lemma OrderAntisymmetric(criteria: string, dir: Direction, a: Employee, b: Employee)
    ensures Order(criteria, dir, b, a) == -Order(criteria, dir, a, b)
  {
    CompareNamesAntisymmetric(a.name, b.name);
  }

  lemma OrderTransitive(criteria: string, dir: Direction, a: Employee, b: Employee, c: Employee)
    requires Order(criteria, dir, a, b) <= 0 && Order(criteria, dir, b, c) <= 0
    ensures Order(criteria, dir, a, c) <= 0
  {
    if criteria == "name" {
      if dir == Asc {
        CompareNamesTransitive(a.name, b.name, c.name);
      } else {
        CompareNamesAntisymmetric(a.name, b.name);
        CompareNamesAntisymmetric(b.name, c.name);
        CompareNamesAntisymmetric(a.name, c.name);
        CompareNamesTransitive(c.name, b.name, a.name);
      }
    }
  }

  // ------------------------------------------------------------------ sort

  /** `s` is ordered by the sort callback for `criteria` and `dir`. */
  predicate Sorted(criteria: string, dir: Direction, s: seq<Employee>) {
    forall i, j :: 0 <= i < j < |s| ==> Order(criteria, dir, s[i], s[j]) <= 0
  }

  /** Places `x` before the first element it does not follow; ties keep `x` in front. */
  function Insert(criteria: string, dir: Direction, x: Employee, s: seq<Employee>): (r: seq<Employee>)
    ensures |r| == |s| + 1
    ensures multiset(r) == multiset(s) + multiset{x}
  {
    if s == [] then [x]
    else if Order(criteria, dir, x, s[0]) <= 0 then [x] + s
    else
      assert s == [s[0]] + s[1..];
      [s[0]] + Insert(criteria, dir, x, s[1..])
  }

  /** `list.sort(callback)`, as a stable insertion sort. */
  function SortList(criteria: string, dir: Direction, s: seq<Employee>): (r: seq<Employee>)
    ensures |r| == |s|
    ensures multiset(r) == multiset(s)
  {
    if s == [] then []
    else
      assert s == [s[0]] + s[1..];
      Insert(criteria, dir, s[0], SortList(criteria, dir, s[1..]))
  }

  /** A record that goes before every record of a sorted list can head it. */
  lemma PrependSorted(criteria: string, dir: Direction, h: Employee, t: seq<Employee>)
    requires Sorted(criteria, dir, t)
    requires forall y :: y in t ==> Order(criteria, dir, h, y) <= 0
    ensures Sorted(criteria, dir, [h] + t)
  {
    var r := [h] + t;
    forall i, j | 0 <= i < j < |r| ensures Order(criteria, dir, r[i], r[j]) <= 0 {
      assert r[j] == t[j - 1];
      if i > 0 {
        assert r[i] == t[i - 1];
      }
    }
  }

  lemma {:induction false} InsertSorted(criteria: string, dir: Direction, x: Employee, s: seq<Employee>)
    requires Sorted(criteria, dir, s)
    ensures Sorted(criteria, dir, Insert(criteria, dir, x, s))
  {
    if s == [] {
    } else if Order(criteria, dir, x, s[0]) <= 0 {
      forall y | y in s ensures Order(criteria, dir, x, y) <= 0 {
        var k :| 0 <= k < |s| && s[k] == y;
        if k > 0 {
          OrderTransitive(criteria, dir, x, s[0], y);
        }
      }
      PrependSorted(criteria, dir, x, s);
    } else {
      OrderAntisymmetric(criteria, dir, x, s[0]);
      var tail := Insert(criteria, dir, x, s[1..]);
      InsertSorted(criteria, dir, x, s[1..]);
      forall y | y in tail ensures Order(criteria, dir, s[0], y) <= 0 {
        assert y in multiset(tail);
        if y != x {
          assert y in multiset(s[1..]);
          var k :| 0 <= k < |s[1..]| && s[1..][k] == y;
          assert s[k + 1] == y;
        }
      }
      PrependSorted(criteria, dir, s[0], tail);
    }
  }

  lemma {:induction false} SortListSorted(criteria: string, dir: Direction, s: seq<Employee>)
    ensures Sorted(criteria, dir, SortList(criteria, dir, s))
  {
    if s != [] {
      SortListSorted(criteria, dir, s[1..]);
      InsertSorted(criteria, dir, s[0], SortList(criteria, dir, s[1..]));
    }
  }

  /** A criteria other than "name" and "birthday" compares every pair equal, so the sort keeps the order. */
  lemma {:induction false} SortListUnknownCriteria(criteria: string, dir: Direction, s: seq<Employee>)
    requires criteria != "name" && criteria != "birthday"
    ensures SortList(criteria, dir, s) == s
  {
    if s != [] {
      SortListUnknownCriteria(criteria, dir, s[1..]);
      assert Order(criteria, dir, s[0], if s[1..] == [] then s[0] else s[1]) == 0;
      assert [s[0]] + s[1..] == s;
    }
  }

  lemma SortSingle(criteria: string, dir: Direction, a: Employee)
    ensures SortList(criteria, dir, [a]) == [a]
    ensures Insert(criteria, dir, a, []) == [a]
  {
    assert [a][1..] == [];
  }

  /** Two records the callback orders strictly come out in that order from either input order. */
  lemma TwoRecordSort(criteria: string, dir: Direction, a: Employee, b: Employee)
    requires Order(criteria, dir, a, b) < 0
    ensures SortList(criteria, dir, [a, b]) == [a, b]
    ensures SortList(criteria, dir, [b, a]) == [a, b]
  {
    OrderAntisymmetric(criteria, dir, a, b);
    SortSingle(criteria, dir, a);
    SortSingle(criteria, dir, b);
    assert [a, b][1..] == [b] && [b, a][1..] == [a];
    assert Insert(criteria, dir, a, [b]) == [a, b];
    assert Insert(criteria, dir, b, [a]) == [a] + Insert(criteria, dir, b, [a][1..]);
  }

  /** The sort toggle: the same criteria flips the direction, a new one starts ascending. */
  function NextSort(current: SortState, requested: string): (next: SortState)
    ensures next.criteria == requested
    ensures requested == current.criteria ==> next.direction != current.direction
    ensures requested != current.criteria ==> next.direction == Asc
  {
    if current.criteria == requested then SortState(requested, Flip(current.direction))
    else SortState(requested, Asc)
  }

  /** Repeating a criteria alternates the direction; after a new criteria the first sort ascends. */
  lemma RepeatedSortAlternates(s0: SortState, requested: string)
    ensures var s1 := NextSort(s0, requested);
            var s2 := NextSort(s1, requested);
            var s3 := NextSort(s2, requested);
            s2.direction == Flip(s1.direction) && s3 == s1 &&
            (s0.criteria != requested ==> s1.direction == Asc) &&
            (s0.criteria == requested ==> s2 == s0)
  {
  }

  // ----------------------------------------------------------------- store

  class EmployeeStore {
    var list: seq<Employee>
    var loading: bool
    var error: Option<string>
    var filters: Filters
    var sortCriteria: string
    var sortDirection: Direction
    /** The list last written to durable storage. */
    ghost var saved: seq<Employee>

    /** The initial state, with the list read back from durable storage. */
    constructor (stored: seq<Employee>)
      ensures list == stored && saved == stored
      ensures !loading && error == None && filters == DefaultFilters
      ensures sortCriteria == "" && sortDirection == Asc
    {
      list := stored;
      saved := stored;
      loading := false;
      error := None;
      filters := DefaultFilters;
      sortCriteria := "";
      sortDirection := Asc;
    }

    /** `addEmployee`: append the record and save the list. */
    method AddEmployee(e: Employee)
      modifies this`list, this`saved
      ensures list == old(list) + [e]
      ensures saved == list
      ensures UniqueIds(old(list)) && e.id !in Ids(old(list)) ==> UniqueIds(list)
    {
      list := list + [e];
      saved := list;
    }

    /** `updateEmployee`: replace the first record with the same id and save; no such record, no change. */
    method UpdateEmployee(e: Employee)
      modifies this`list, this`saved
      ensures var k := FindIndex(old(list), e.id);
        if k == -1 then list == old(list) && saved == old(saved)
        else list == old(list)[k := e] && saved == list
      ensures UniqueIds(old(list)) ==> UniqueIds(list)
    {
      var index := FindIndex(list, e.id);
      if index != -1 {
        list := list[index := e];
        saved := list;
      }
    }

    /** `sortEmployees`: toggle the sort state, then sort the list in place with the new direction. */
    method SortEmployees(criteria: string)
      modifies this`list, this`sortCriteria, this`sortDirection
      ensures SortState(sortCriteria, sortDirection) ==
              NextSort(SortState(old(sortCriteria), old(sortDirection)), criteria)
      ensures list == SortList(criteria, sortDirection, old(list))
      ensures multiset(list) == multiset(old(list))
      ensures Sorted(criteria, sortDirection, list)
      ensures UniqueIds(old(list)) ==> UniqueIds(list)
    {
      if sortCriteria == criteria {
        sortDirection := if sortDirection == Asc then Desc else Asc;
      } else {
        sortCriteria := criteria;
        sortDirection := Asc;
      }
      SortListSorted(criteria, sortDirection, list);
      if UniqueIds(list) {
        PermutationKeepsUniqueIds(list, SortList(criteria, sortDirection, list));
      }
      list := SortList(criteria, sortDirection, list);
    }

    /** `filterEmployees`: replace the filters wholesale; the birthday month becomes unset. */
    method FilterEmployees(role: string, isArchive: bool)
      modifies this`filters
      ensures filters == Filters(role, isArchive, None)
    {
      filters := Filters(role, isArchive, None);
    }

    /** The pending case of the fetch. */
    method FetchPending()
      modifies this`loading, this`error
      ensures loading && error == None
    {
      loading := true;
      error := None;
    }

    /** The fulfilled case of the fetch: append the payload records whose id is new. */
    method FetchFulfilled(payload: seq<Employee>)
      modifies this`loading, this`list
      ensures !loading
      ensures list == old(list) + NewRecords(old(list), payload)
      ensures IsSubsequence(list[|old(list)|..], payload)
      ensures forall e :: e in list[|old(list)|..] ==> e.id !in Ids(old(list))
      ensures forall e :: e in payload && e.id !in Ids(old(list)) ==> e in list[|old(list)|..]
      ensures UniqueIds(old(list)) && UniqueIds(payload) ==> UniqueIds(list)
    {
      loading := false;
      var existingIds := Ids(list);
      var newEmployees := Filter((e: Employee) => e.id !in existingIds, payload);
      if UniqueIds(list) && UniqueIds(payload) {
        FetchKeepsIdsUnique(list, payload);
      }
      list := list + newEmployees;
      assert list[|old(list)|..] == newEmployees;
    }

    /** The rejected case of the fetch: record the message, or the fallback text when there is none. */
    method FetchRejected(message: Option<string>)
      modifies this`loading, this`error
      ensures !loading
      ensures message.Some? && message.value != "" ==> error == message
      ensures message.None? || message.value == "" ==> error == Some(FetchErrorFallback)
    {
      loading := false;
      error := Some(if message.Some? && message.value != "" then message.value else FetchErrorFallback);
    }
  }
}
