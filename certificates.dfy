// The certificate strip of `components/Certificates.tsx`: the certificates of the TechWave
// experience entry, shown newest first by a stable sort on a (year, month) key read from the
// free-text date.

module Certificates {
  import opened Wrappers
  import opened JsText

  datatype Certificate = Certificate(title: string, date: string)

  /** An entry of the translated experience list; both fields may be missing. */
  datatype Experience = Experience(company: Option<string>, certificates: Option<seq<Certificate>>)

  /** The `find` callback: the company names TechWave. */
  predicate IsTechWave(e: Experience) {
    e.company.Some? && (Contains(e.company.value, "TechWave") || e.company.value == "TechWave d.o.o.")
  }

  /** The exact-name test of the callback adds nothing: that name already contains `TechWave`. */
  lemma ExactNameIsRedundant(e: Experience)
    ensures IsTechWave(e) <==> e.company.Some? && Contains(e.company.value, "TechWave")
  {
    if e.company.Some? && e.company.value == "TechWave d.o.o." {
      assert OccursAt(e.company.value, "TechWave", 0);
    }
  }

  /** The index `find` stops at: the first TechWave entry, or `|exps|` when there is none. */
  function FindTechWave(exps: seq<Experience>): (i: nat)
    ensures i <= |exps|
    ensures i < |exps| ==> IsTechWave(exps[i])
    ensures forall j | 0 <= j < i :: !IsTechWave(exps[j])
  {
    if exps == [] then 0
    else if IsTechWave(exps[0]) then 0
    else 1 + FindTechWave(exps[1..])
  }

  /** `techWaveEntry?.certificates || []`: a present list, even an empty one, is kept. */
  function EntryCertificates(exps: seq<Experience>): seq<Certificate> {
    var i := FindTechWave(exps);
    if i < |exps| && exps[i].certificates.Some? then exps[i].certificates.value else []
  }

  // ---- sort keys ----

  /** The year strings the key function looks for. */
  function YearText(y: int): string {
    if y == 2025 then "2025" else if y == 2024 then "2024" else "2023"
  }

  predicate MentionsYear(date: string, y: int) {
    2023 <= y <= 2025 && Contains(date, YearText(y))
  }

  /** `getYear`: the latest of 2025, 2024, 2023 that the text mentions, or 0 for none. */
  function GetYear(date: string): int {
    if Contains(date, "2025") then 2025
    else if Contains(date, "2024") then 2024
    else if Contains(date, "2023") then 2023
    else 0
  }

  lemma GetYearIsLatestMentioned(date: string)
    ensures GetYear(date) == 0 || MentionsYear(date, GetYear(date))
    ensures forall k | MentionsYear(date, k) :: k <= GetYear(date)
    ensures GetYear(date) == 0 <==> forall k | 2023 <= k <= 2025 :: !MentionsYear(date, k)
  {
  }

  /** The English, Bosnian and Turkish names of the three months the key function knows. */
  function MonthNames(m: int): seq<string> {
    if m == 12 then ["December", "Decembar", "Aral\U{131}k"]
    else if m == 11 then ["November", "Novembar", "Kas\U{131}m"]
    else ["October", "Oktobar", "Ekim"]
  }

  predicate MentionsMonth(date: string, m: int) {
    10 <= m <= 12 && exists n | n in MonthNames(m) :: Contains(date, n)
  }

  /** `getMonth`: the latest of December, November, October named in any of the three languages,
      or 0 for every other month. */
  function GetMonth(date: string): int {
    if Contains(date, "December") || Contains(date, "Decembar") || Contains(date, "Aral\U{131}k") then 12
    else if Contains(date, "November") || Contains(date, "Novembar") || Contains(date, "Kas\U{131}m") then 11
    else if Contains(date, "October") || Contains(date, "Oktobar") || Contains(date, "Ekim") then 10
    else 0
  }

  lemma GetMonthIsLatestMentioned(date: string)
    ensures GetMonth(date) == 0 || MentionsMonth(date, GetMonth(date))
    ensures forall k | MentionsMonth(date, k) :: k <= GetMonth(date)
    ensures GetMonth(date) == 0 <==> forall k | 10 <= k <= 12 :: !MentionsMonth(date, k)
  {
  }

  /** The comparator handed to `sort`, as written: year descending, then month descending. */
  function Compare(a: Certificate, b: Certificate): int {
    var ya := GetYear(a.date);
    var yb := GetYear(b.date);
    if ya != yb then yb - ya else GetMonth(b.date) - GetMonth(a.date)
  }

  /** One number ordering certificates as the comparator does: months stay below 100. */
  function Rank(c: Certificate): int {
    GetYear(c.date) * 100 + GetMonth(c.date)
  }

  lemma MonthInRange(date: string)
    ensures 0 <= GetMonth(date) <= 12
  {
  }

  /** The comparator puts `a` first exactly when its rank is higher, and calls them equal
      exactly when the ranks are equal. */
  lemma CompareIsByRank(a: Certificate, b: Certificate)
    ensures Compare(a, b) < 0 <==> Rank(a) > Rank(b)
    ensures Compare(a, b) == 0 <==> Rank(a) == Rank(b)
  {
    MonthInRange(a.date);
    MonthInRange(b.date);
  }

  /** Ranks never increase from left to right. */
  predicate SortedBy(s: seq<Certificate>, key: Certificate -> int) {
    forall i, j | 0 <= i < j < |s| :: key(s[i]) >= key(s[j])
  }

  /** Newest first. */
  predicate Sorted(s: seq<Certificate>) {
    SortedBy(s, Rank)
  }

  /** Insertion step of a stable sort by descending `key`: `c` goes before the first element
      that does not outrank it. */
  function Insert(c: Certificate, t: seq<Certificate>, key: Certificate -> int): (r: seq<Certificate>)
    ensures |r| == |t| + 1
    ensures multiset(r) == multiset(t) + multiset{c}
  {
    if t == [] || key(c) >= key(t[0]) then [c] + t
    else
      assert t == [t[0]] + t[1..];
      [t[0]] + Insert(c, t[1..], key)
  }

  /** Inserting into a sorted list keeps it sorted; the new head is `c` or the old head. */
  lemma {:induction false} InsertKeepsSorted(c: Certificate, t: seq<Certificate>, key: Certificate -> int)
    requires SortedBy(t, key)
    ensures SortedBy(Insert(c, t, key), key)
    ensures Insert(c, t, key)[0] == c || (t != [] && Insert(c, t, key)[0] == t[0])
  {
    var r := Insert(c, t, key);
    if t == [] || key(c) >= key(t[0]) {
      forall i, j | 0 <= i < j < |r| ensures key(r[i]) >= key(r[j]) {
        assert r[j] == t[j - 1];
        if i > 0 {
          assert r[i] == t[i - 1];
        } else if j > 1 {
          assert key(t[0]) >= key(t[j - 1]);
        }
      }
    } else {
      var tail := t[1..];
      assert SortedBy(tail, key) by {
        forall i, j | 0 <= i < j < |tail| ensures key(tail[i]) >= key(tail[j]) {
          assert tail[i] == t[i + 1] && tail[j] == t[j + 1];
        }
      }
      InsertKeepsSorted(c, tail, key);
      var rest := Insert(c, tail, key);
      assert key(t[0]) >= key(rest[0]) by {
        if rest[0] != c {
          assert rest[0] == t[1];
        }
      }
      forall i, j | 0 <= i < j < |r| ensures key(r[i]) >= key(r[j]) {
        assert r[j] == rest[j - 1];
        if i > 0 {
          assert r[i] == rest[i - 1];
        } else if j > 1 {
          assert key(rest[0]) >= key(rest[j - 1]);
        }
      }
    }
  }

  /** Insertion sort by descending `key`. */
  function SortBy(s: seq<Certificate>, key: Certificate -> int): (r: seq<Certificate>)
    ensures multiset(r) == multiset(s)
    ensures SortedBy(r, key)
  {
    if s == [] then []
    else
      assert s == [s[0]] + s[1..];
      InsertKeepsSorted(s[0], SortBy(s[1..], key), key);
      Insert(s[0], SortBy(s[1..], key), key)
  }

  /** The sorted copy: a permutation of the input, newest first. */
  function SortByDate(s: seq<Certificate>): (r: seq<Certificate>)
    ensures multiset(r) == multiset(s)
    ensures Sorted(r)
  {
    SortBy(s, Rank)
  }

  /** The elements whose key is `k`, in order. */
  function OfKey(s: seq<Certificate>, key: Certificate -> int, k: int): seq<Certificate> {
    if s == [] then []
    else if key(s[0]) == k then [s[0]] + OfKey(s[1..], key, k)
    else OfKey(s[1..], key, k)
  }

  lemma {:induction false} OfKeyInsert(c: Certificate, t: seq<Certificate>, key: Certificate -> int, k: int)
    ensures OfKey(Insert(c, t, key), key, k) == if key(c) == k then [c] + OfKey(t, key, k) else OfKey(t, key, k)
  {
    if t == [] || key(c) >= key(t[0]) {
      assert ([c] + t)[1..] == t;
    } else {
      OfKeyInsert(c, t[1..], key, k);
      assert ([t[0]] + Insert(c, t[1..], key))[1..] == Insert(c, t[1..], key);
    }
  }

  lemma {:induction false} SortByIsStable(s: seq<Certificate>, key: Certificate -> int, k: int)
    ensures OfKey(SortBy(s, key), key, k) == OfKey(s, key, k)
  {
    if s != [] {
      SortByIsStable(s[1..], key, k);
      OfKeyInsert(s[0], SortBy(s[1..], key), key, k);
    }
  }

  /** Stability: certificates the comparator calls equal keep their original order. */
  lemma SortIsStable(s: seq<Certificate>, k: int)
    ensures OfKey(SortByDate(s), Rank, k) == OfKey(s, Rank, k)
  {
    SortByIsStable(s, Rank, k);
  }

  /** In the sorted copy years never increase, and within one year months never increase; no
      two neighbours are ones the comparator would swap. */
  lemma SortedOrder(s: seq<Certificate>, i: int, j: int)
    requires Sorted(s)
    requires 0 <= i < j < |s|
    ensures GetYear(s[i].date) >= GetYear(s[j].date)
    ensures GetYear(s[i].date) == GetYear(s[j].date) ==> GetMonth(s[i].date) >= GetMonth(s[j].date)
    ensures Compare(s[i], s[j]) <= 0
  {
    assert Rank(s[i]) >= Rank(s[j]);
    MonthInRange(s[i].date);
    MonthInRange(s[j].date);
    CompareIsByRank(s[i], s[j]);
  }

  /** What the component lays out: the TechWave entry's certificates, newest first, or nothing
      at all (`None`, the component returning `null`) when there are none. */
  function Shown(exps: seq<Experience>): (r: Option<seq<Certificate>>)
    ensures r.None? <==> EntryCertificates(exps) == []
    ensures r.Some? ==> multiset(r.value) == multiset(EntryCertificates(exps)) && Sorted(r.value)
  {
    var sorted := SortByDate(EntryCertificates(exps));
    if |sorted| == 0 then None else Some(sorted)
  }

  /** Nothing is shown when no entry names TechWave, or when that entry lists no certificates. */
  lemma NothingShownWithoutTechWave(exps: seq<Experience>)
    ensures (forall e | e in exps :: !IsTechWave(e)) ==> Shown(exps).None?
    ensures Shown(exps).Some? ==>
      exists i | 0 <= i < |exps| :: IsTechWave(exps[i]) && exps[i].certificates.Some? && exps[i].certificates.value != []
  {
    var i := FindTechWave(exps);
    if i < |exps| {
      assert exps[i] in exps;
    }
  }
}
