/**
 * The hospital's patient records screen: the patient list taken from the
 * user table, search, the "recent" cap and the sort options, the summary
 * statistics, and the per-patient history helpers.
 */
module PatientRecords {
  import opened Wrappers
  import opened Text
  import opened Lists

  /** An entry of a per-patient collection (sonography reports, plans,
      health and weight records, appointments): its two time fields, each
      `None` when the entry lacks it (a plan's ISO `createdAt` is held as its
      instant), and the rest of its fields. */
  datatype Entry = Entry(createdAt: Option<int>, timestamp: Option<int>, fields: map<string, string>)

  /** A collection as `Object.entries` lists it, or `None` when the user
      record has no such child. */
  type Collection = Option<seq<(string, Entry)>>

  /** A record of the user table. Absent fields are `None`. */
  datatype UserRecord = UserRecord(
    name: Option<string>,
    email: Option<string>,
    phone: Option<string>,
    age: Option<string>,
    userType: Option<string>,
    sonography: Collection,
    dietPlans: Collection,
    exercisePlans: Collection,
    healthRecords: Collection,
    weightRecords: Collection,
    appointments: Collection)

  /** `{ ...usersData[key], id: key }`. */
  datatype Patient = Patient(id: string, record: UserRecord)

  predicate IsPatient(u: UserRecord) {
    u.userType == Some("user")
  }

  /** `fetchPatients`: the users whose `userType` is `'user'`, in snapshot
      order, each tagged with its key. */
  function PatientList(entries: seq<(string, UserRecord)>): (r: seq<Patient>)
    ensures |r| <= |entries|
    ensures forall p :: p in r ==> IsPatient(p.record) && (p.id, p.record) in entries
    ensures forall i :: 0 <= i < |entries| && IsPatient(entries[i].1) ==> Patient(entries[i].0, entries[i].1) in r
  {
    SelectTaggedMembers(entries, IsPatient, PatientOf);
    var r := SelectTagged(entries, IsPatient, PatientOf);
    assert forall p :: p in r ==> IsPatient(p.record) && (p.id, p.record) in entries by {
      forall p | p in r
        ensures IsPatient(p.record) && (p.id, p.record) in entries
      {
        var i :| 0 <= i < |entries| && IsPatient(entries[i].1) && p == Patient(entries[i].0, entries[i].1);
        assert entries[i] == (p.id, p.record);
      }
    }
    r
  }

  function PatientOf(key: string, u: UserRecord): Patient {
    Patient(key, u)
  }

  /** The patient list follows the snapshot, one patient per patient record:
      listing two runs of entries lists each in turn, a single entry lists
      as its patient exactly when it is one, and the count (`totalPatients`)
      is the number of records whose `userType` is `'user'`. */
  lemma PatientListInOrder(a: seq<(string, UserRecord)>, b: seq<(string, UserRecord)>)
    ensures PatientList(a + b) == PatientList(a) + PatientList(b)
    ensures |a| == 1 ==> PatientList(a) == if IsPatient(a[0].1) then [Patient(a[0].0, a[0].1)] else []
    ensures |PatientList(a)| == CountWhere(Values(a), IsPatient)
  {
    SelectTaggedAppend(a, b, IsPatient, PatientOf);
    SelectTaggedCount(a, IsPatient, PatientOf);
  }

  /** `x && x.toLowerCase().includes(term.toLowerCase())` for an optional field. */
  predicate FieldContains(field: Option<string>, term: string) {
    field.Some? && field.value != [] && ContainsIgnoreCase(field.value, term)
  }

  /** The search: name or email contains the term ignoring case, or the
      phone contains it as typed. */
  predicate MatchesSearch(p: Patient, term: string) {
    || FieldContains(p.record.name, term)
    || FieldContains(p.record.email, term)
    || (p.record.phone.Some? && p.record.phone.value != [] && Includes(p.record.phone.value, term))
  }

  /** The list after the search step. */
  function Searched(patients: seq<Patient>, searchTerm: string): seq<Patient> {
    if IsBlank(searchTerm) then patients else Filter(patients, p => MatchesSearch(p, searchTerm))
  }

  /** A blank term keeps the list; any other keeps, in order and as often as
      they occur, exactly the matching patients. */
  lemma SearchedKeepsExactly(patients: seq<Patient>, searchTerm: string)
    ensures IsBlank(searchTerm) ==> Searched(patients, searchTerm) == patients
    ensures forall p :: (multiset(Searched(patients, searchTerm))[p] ==
      if IsBlank(searchTerm) || MatchesSearch(p, searchTerm) then multiset(patients)[p] else 0)
    ensures IsSubseq(Searched(patients, searchTerm), patients)
  {
    if IsBlank(searchTerm) {
      SubseqRefl(patients);
    } else {
      FilterKeepsExactly(patients, p => MatchesSearch(p, searchTerm));
    }
  }

  /** The list after search and the `'recent'` cap, before sorting. */
  function Selected(patients: seq<Patient>, searchTerm: string, filter: string): (r: seq<Patient>)
    ensures filter == "recent" ==> |r| <= 10 && |r| <= |Searched(patients, searchTerm)| && r == Searched(patients, searchTerm)[..|r|]
    ensures filter == "recent" && |Searched(patients, searchTerm)| >= 10 ==> |r| == 10
    ensures filter != "recent" ==> r == Searched(patients, searchTerm)
  {
    var s := Searched(patients, searchTerm);
    if filter == "recent" then Take(s, 10) else s
  }

  /** `(p.name || '')`. */
  function NameOf(p: Patient): string {
    if p.record.name.Some? then p.record.name.value else ""
  }

  /** `(parseInt(p.age) || 0)`; a missing age parses to `NaN`, hence 0. */
  function AgeOf(p: Patient): int {
    if p.record.age.Some? then ParseIntOrZero(p.record.age.value) else 0
  }

  predicate NameAscending(a: Patient, b: Patient) { LexLe(NameOf(a), NameOf(b)) }
  predicate NameDescending(a: Patient, b: Patient) { LexLe(NameOf(b), NameOf(a)) }
  predicate AgeAscending(a: Patient, b: Patient) { AgeOf(a) <= AgeOf(b) }
  predicate AgeDescending(a: Patient, b: Patient) { AgeOf(a) >= AgeOf(b) }

  /** `applyFiltersAndSort`: a permutation of the searched and capped list,
      ordered by the sort option; an unknown option keeps that list as it is. */
  method ApplyFiltersAndSort(patients: seq<Patient>, searchTerm: string, filter: string, sort: string)
    returns (filtered: seq<Patient>)
    ensures multiset(filtered) == multiset(Selected(patients, searchTerm, filter))
    ensures sort == "name_asc" ==> forall i, j :: 0 <= i < j < |filtered| ==> LexLe(NameOf(filtered[i]), NameOf(filtered[j]))
    ensures sort == "name_desc" ==> forall i, j :: 0 <= i < j < |filtered| ==> LexLe(NameOf(filtered[j]), NameOf(filtered[i]))
    ensures sort == "age_asc" ==> forall i, j :: 0 <= i < j < |filtered| ==> AgeOf(filtered[i]) <= AgeOf(filtered[j])
    ensures sort == "age_desc" ==> forall i, j :: 0 <= i < j < |filtered| ==> AgeOf(filtered[i]) >= AgeOf(filtered[j])
    ensures sort !in {"name_asc", "name_desc", "age_asc", "age_desc"} ==> filtered == Selected(patients, searchTerm, filter)
  {
    filtered := patients;
    if !IsBlank(searchTerm) {
      filtered := Filter(filtered, p => MatchesSearch(p, searchTerm));
    }
    if filter == "recent" {
      filtered := Take(filtered, 10);
    }
    filtered := SortPatients(filtered, sort);
  }

  /** The `sort` step: a permutation ordered by the option; an unknown
      option leaves the list as it is. */
  method SortPatients(s: seq<Patient>, sort: string) returns (r: seq<Patient>)
    ensures multiset(r) == multiset(s)
    ensures sort == "name_asc" ==> forall i, j :: 0 <= i < j < |r| ==> LexLe(NameOf(r[i]), NameOf(r[j]))
    ensures sort == "name_desc" ==> forall i, j :: 0 <= i < j < |r| ==> LexLe(NameOf(r[j]), NameOf(r[i]))
    ensures sort == "age_asc" ==> forall i, j :: 0 <= i < j < |r| ==> AgeOf(r[i]) <= AgeOf(r[j])
    ensures sort == "age_desc" ==> forall i, j :: 0 <= i < j < |r| ==> AgeOf(r[i]) >= AgeOf(r[j])
    ensures sort !in {"name_asc", "name_desc", "age_asc", "age_desc"} ==> r == s
  {
    r := s;
    if sort == "name_asc" {
      NamesTotal();
      SortBySorted(s, NameAscending);
      r := SortBy(s, NameAscending);
    } else if sort == "name_desc" {
      NamesTotal();
      SortBySorted(s, NameDescending);
      r := SortBy(s, NameDescending);
    } else if sort == "age_asc" {
      assert TotalPreorder(AgeAscending);
      SortBySorted(s, AgeAscending);
      r := SortBy(s, AgeAscending);
    } else if sort == "age_desc" {
      assert TotalPreorder(AgeDescending);
      SortBySorted(s, AgeDescending);
      r := SortBy(s, AgeDescending);
    }
  }

  /** Both name comparators are total preorders, because `LexLe` is total
      and transitive. */
  lemma NamesTotal()
    ensures TotalPreorder(NameAscending) && TotalPreorder(NameDescending)
  {
    forall a, b
      ensures NameAscending(a, b) || NameAscending(b, a)
    {
      LexLeTotal(NameOf(a), NameOf(b));
    }
    forall a, b, c | NameAscending(a, b) && NameAscending(b, c)
      ensures NameAscending(a, c)
    {
      LexLeTrans(NameOf(a), NameOf(b), NameOf(c));
    }
    forall a, b
      ensures NameDescending(a, b) || NameDescending(b, a)
    {
      LexLeTotal(NameOf(a), NameOf(b));
    }
    forall a, b, c | NameDescending(a, b) && NameDescending(b, c)
      ensures NameDescending(a, c)
    {
      LexLeTrans(NameOf(c), NameOf(b), NameOf(a));
    }
  }

  /** `patients.reduce((sum, p) => sum + (parseInt(p.age) || 0), 0)`. */
  function AgeSum(patients: seq<Patient>): int {
    if patients == [] then 0 else AgeSum(patients[..|patients| - 1]) + AgeOf(patients[|patients| - 1])
  }

  /** `Math.round(sum / n)` for `n > 0`: the nearest integer, halves rounded up. */
  function RoundedMean(sum: int, n: int): (r: int)
    requires n > 0
    ensures r * (2 * n) <= 2 * sum + n < r * (2 * n) + 2 * n
  {
    (2 * sum + n) / (2 * n)
  }

  datatype Statistics = Statistics(total: nat, averageAge: int)

  /** `calculateStatistics`. */
  function CalculateStatistics(patients: seq<Patient>): (s: Statistics)
    ensures s.total == |patients|
    ensures patients == [] ==> s.averageAge == 0
    ensures patients != [] ==> s.averageAge == RoundedMean(AgeSum(patients), |patients|)
  {
    Statistics(|patients|, if |patients| > 0 then RoundedMean(AgeSum(patients), |patients|) else 0)
  }

  /** Ages that all lie in `[lo, hi]` sum to between `lo` and `hi` times
      their number. */
  lemma {:induction false} AgeSumBounds(patients: seq<Patient>, lo: int, hi: int)
    requires forall p :: p in patients ==> lo <= AgeOf(p) <= hi
    ensures lo * |patients| <= AgeSum(patients) <= hi * |patients|
  {
    if patients != [] {
      var init := patients[..|patients| - 1];
      assert forall p :: p in init ==> p in patients;
      AgeSumBounds(init, lo, hi);
      assert patients[|patients| - 1] in patients;
      MulSucc(lo, |init|);
      MulSucc(hi, |init|);
    }
  }

  lemma MulSucc(a: int, k: int)
    ensures a * (k + 1) == a * k + a
  {
  }

  /** When every age lies in `[lo, hi]`, so does the rounded average. */
  lemma AverageAgeInRange(patients: seq<Patient>, lo: int, hi: int)
    requires patients != []
    requires forall p :: p in patients ==> lo <= AgeOf(p) <= hi
    ensures lo <= CalculateStatistics(patients).averageAge <= hi
  {
    AgeSumBounds(patients, lo, hi);
    RoundedMeanBounds(AgeSum(patients), |patients|, lo, hi);
  }

  lemma RoundedMeanBounds(sum: int, n: int, lo: int, hi: int)
    requires n > 0 && lo * n <= sum <= hi * n
    ensures lo <= RoundedMean(sum, n) <= hi
  {
    var r := RoundedMean(sum, n);
    var m := 2 * n;
    if r < lo {
      MulLe(r + 1, lo, m);
      MulSucc(r, m);
      assert false;
    }
    if r > hi {
      MulLe(hi + 1, r, m);
      MulSucc(hi, m);
      assert false;
    }
  }

  lemma MulLe(a: int, b: int, c: int)
    requires a <= b && c > 0
    ensures a * c <= b * c
  {
    assert b * c - a * c == (b - a) * c;
  }

  /** The stamp `getLatest*` and the history helpers sort on, as an
      accessor: `None` when the entry lacks that field, which makes the
      comparator's subtraction `NaN`. */
  function CreatedAt(e: Entry): Option<int> { e.createdAt }
  function Timestamp(e: Entry): Option<int> { e.timestamp }

  /** `(a, b) => b[1].stamp - a[1].stamp` read as "`a` may stay before `b`":
      the difference is at most 0, or it is `NaN` because a stamp is
      missing, which `Array.prototype.sort` treats as 0 (a tie). */
  function NewerFirstBy(stamp: Entry -> Option<int>): ((string, Entry), (string, Entry)) -> bool {
    (a: (string, Entry), b: (string, Entry)) =>
      stamp(a.1).None? || stamp(b.1).None? || stamp(a.1).value >= stamp(b.1).value
  }

  /** The same order with a missing stamp read as 0: a total preorder that
      agrees with `NewerFirstBy` on stamped entries. */
  function StampOrZeroGe(stamp: Entry -> Option<int>): ((string, Entry), (string, Entry)) -> bool {
    (a: (string, Entry), b: (string, Entry)) =>
      (if stamp(a.1).Some? then stamp(a.1).value else 0) >= (if stamp(b.1).Some? then stamp(b.1).value else 0)
  }

  ghost predicate AllStamped(entries: seq<(string, Entry)>, stamp: Entry -> Option<int>) {
    forall e :: e in entries ==> stamp(e.1).Some?
  }

  ghost predicate NoneStamped(entries: seq<(string, Entry)>, stamp: Entry -> Option<int>) {
    forall e :: e in entries ==> stamp(e.1).None?
  }

  /** `x` is an entry whose stamp is at least that of every entry. */
  ghost predicate IsNewest(entries: seq<(string, Entry)>, stamp: Entry -> Option<int>, x: (string, Entry))
    requires AllStamped(entries, stamp)
  {
    x in entries && stamp(x.1).Some? && forall e :: e in entries ==> stamp(e.1).value <= stamp(x.1).value
  }

  /** `getLatestSonography` (by `createdAt`) and `getLatestDietPlan`,
      `getLatestExercisePlan` (by `timestamp`): sort the entries newest
      first, then take the head. `None` exactly for a missing or empty
      collection; otherwise one of its entries, the newest when every entry
      carries the stamp, and the first listed when none does. */
  function GetLatest(collection: Collection, stamp: Entry -> Option<int>): (r: Option<(string, Entry)>)
    ensures r.None? <==> collection.None? || collection.value == []
    ensures r.Some? ==> collection.Some? && r.value in collection.value
    ensures r.Some? && AllStamped(collection.value, stamp) ==> IsNewest(collection.value, stamp, r.value)
    ensures r.Some? && NoneStamped(collection.value, stamp) ==> r.value == collection.value[0]
  {
    if collection.None? || collection.value == [] then None
    else
      var sorted := SortBy(collection.value, NewerFirstBy(stamp));
      HeadOfSorted(collection.value, stamp);
      Some(sorted[0])
  }

  /** The head of the sorted entries is one of them; the newest when all are
      stamped; the first when none is. */
  lemma HeadOfSorted(entries: seq<(string, Entry)>, stamp: Entry -> Option<int>)
    requires entries != []
    ensures SortBy(entries, NewerFirstBy(stamp))[0] in entries
    ensures AllStamped(entries, stamp) ==> IsNewest(entries, stamp, SortBy(entries, NewerFirstBy(stamp))[0])
    ensures NoneStamped(entries, stamp) ==> SortBy(entries, NewerFirstBy(stamp))[0] == entries[0]
  {
    var sorted := SortBy(entries, NewerFirstBy(stamp));
    assert sorted[0] in multiset(entries);
    if AllStamped(entries, stamp) {
      StampedNewestFirst(entries, stamp);
      assert StampsDescend(sorted, stamp);
      forall e | e in entries
        ensures stamp(e.1).value <= stamp(sorted[0].1).value
      {
        assert e in multiset(sorted);
        var j :| 0 <= j < |sorted| && sorted[j] == e;
      }
    }
    if NoneStamped(entries, stamp) {
      SortByAllTies(entries, NewerFirstBy(stamp));
    }
  }

  /** Every entry of `s` carries the stamp, and the stamps never increase
      along `s`. */
  ghost predicate StampsDescend(s: seq<(string, Entry)>, stamp: Entry -> Option<int>) {
    forall i, j :: 0 <= i < j < |s| ==>
      stamp(s[i].1).Some? && stamp(s[j].1).Some? && stamp(s[i].1).value >= stamp(s[j].1).value
  }

  /** Entries that all carry the stamp come out of the sort newest first. */
  lemma StampedNewestFirst(entries: seq<(string, Entry)>, stamp: Entry -> Option<int>)
    requires AllStamped(entries, stamp)
    ensures StampsDescend(SortBy(entries, NewerFirstBy(stamp)), stamp)
  {
    var sorted := SortBy(entries, NewerFirstBy(stamp));
    var ge := StampOrZeroGe(stamp);
    SortByCongruent(entries, NewerFirstBy(stamp), ge);
    assert TotalPreorder(ge);
    SortBySorted(entries, ge);
    forall x | x in sorted
      ensures stamp(x.1).Some?
    {
      assert x in multiset(sorted);
    }
    forall i, j | 0 <= i < j < |sorted|
      ensures stamp(sorted[i].1).Some? && stamp(sorted[j].1).Some?
      ensures stamp(sorted[i].1).value >= stamp(sorted[j].1).value
    {
      assert sorted[i] in sorted && sorted[j] in sorted;
      assert ge(sorted[i], sorted[j]);
    }
  }

  /** `getHealthRecords`, `getWeightRecords`, `getAppointments`: every entry
      with its key as `id`, newest first by `timestamp`; `[]` for a missing
      collection. */
  function NewestFirst(collection: Collection): seq<(string, Entry)> {
    if collection.None? then [] else SortBy(collection.value, NewerFirstBy(Timestamp))
  }

  /** The listing holds every entry; newest first when every entry carries a
      `timestamp` (the screens that write these records always set one). */
  lemma NewestFirstListsAll(collection: Collection)
    ensures collection.None? ==> NewestFirst(collection) == []
    ensures collection.Some? ==> multiset(NewestFirst(collection)) == multiset(collection.value)
    ensures collection.Some? && AllStamped(collection.value, Timestamp) ==>
      StampsDescend(NewestFirst(collection), Timestamp)
  {
    if collection.Some? && AllStamped(collection.value, Timestamp) {
      StampedNewestFirst(collection.value, Timestamp);
    }
  }

  /** The diet and exercise screens save a plan under the key `Date.now()`
      with a `createdAt` field and no `timestamp`, so the keys list oldest
      first and `getLatestDietPlan` / `getLatestExercisePlan`, which sort on
      `timestamp`, return the oldest plan. Two plans saved a minute apart: */
  lemma LatestPlanIsOldest()
    ensures var older := ("1700000000000", Entry(Some(1700000000000), None, map[]));
            var newer := ("1700000060000", Entry(Some(1700000060000), None, map[]));
            GetLatest(Some([older, newer]), Timestamp) == Some(older)
  {
    var older := ("1700000000000", Entry(Some(1700000000000), None, map[]));
    var newer := ("1700000060000", Entry(Some(1700000060000), None, map[]));
    assert NoneStamped([older, newer], Timestamp);
  }

  /** The latest plan as evidently intended: sorted on the `createdAt` the
      plan screens write, so the newest saved plan when every plan has one. */
  function GetLatestPlan(collection: Collection): (r: Option<(string, Entry)>)
    ensures r.None? <==> collection.None? || collection.value == []
    ensures r.Some? ==> collection.Some? && r.value in collection.value
    ensures r.Some? && AllStamped(collection.value, CreatedAt) ==> IsNewest(collection.value, CreatedAt, r.value)
  {
    GetLatest(collection, CreatedAt)
  }

  /** The two plans above: the corrected lookup returns the newer one. */
  lemma LatestPlanIsNewest()
    ensures var older := ("1700000000000", Entry(Some(1700000000000), None, map[]));
            var newer := ("1700000060000", Entry(Some(1700000060000), None, map[]));
            GetLatestPlan(Some([older, newer])) == Some(newer)
  {
    var older := ("1700000000000", Entry(Some(1700000000000), None, map[]));
    var newer := ("1700000060000", Entry(Some(1700000060000), None, map[]));
    var r := GetLatestPlan(Some([older, newer]));
    assert AllStamped([older, newer], CreatedAt);
    assert r.value == older || r.value == newer;
  }
}
