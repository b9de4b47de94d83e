/** The open-addressing hash table that interns device identities as session ids. */
module HashTable {
  import opened ProbeSequence
  import opened Wrappers

  const WORD: nat := 0x1_0000_0000

  /** A C string: its characters before the terminating NUL, as signed values. */
  type Str = seq<int>

  /** used is 0 for a free slot, and otherwise the first index of the string kept there. */
  datatype Entry = Entry(used: nat, str: Str)

  /** One word of the main hash: r times 33 plus the character, modulo 2 to the 32. */
  function Mix(r: nat, c: int): nat {
    (r * 33 + c) % WORD
  }

  function MainHash(s: Str): nat {
    if s == [] then 5381 else Mix(MainHash(s[..|s| - 1]), s[|s| - 1])
  }

  function Power(n: nat): nat {
    if n == 0 then 1 else 33 * Power(n - 1)
  }

  /** The characters of s as the digits of a number to the base 33. */
  function Digits(s: Str): int {
    if s == [] then 0 else s[0] * Power(|s| - 1) + Digits(s[1..])
  }

  /** The main hash is that number, with 5381 in front, modulo 2 to the 32. */
  lemma {:induction false} MainHashIs(s: Str)
    ensures MainHash(s) == (5381 * Power(|s|) + Digits(s)) % 0x1_0000_0000
  {
    if s != [] {
      var init, c := s[..|s| - 1], s[|s| - 1];
      MainHashIs(init);
      DigitsMore(init, c);
      assert init + [c] == s;
      MixMod(5381 * Power(|init|) + Digits(init), c);
      assert 5381 * Power(|s|) == 33 * (5381 * Power(|init|));
    }
  }

  lemma {:induction false} DigitsMore(s: Str, c: int)
    ensures Digits(s + [c]) == 33 * Digits(s) + c
  {
    if s == [] {
      assert s + [c] == [c] && [c][1..] == [];
    } else {
      DigitsMore(s[1..], c);
      assert (s + [c])[1..] == s[1..] + [c];
      assert s[0] * Power(|s|) == 33 * (s[0] * Power(|s| - 1));
    }
  }

  lemma MixMod(x: int, c: int)
    ensures Mix(x % 0x1_0000_0000, c) == (33 * x + c) % 0x1_0000_0000
  {
    var q := x / 0x1_0000_0000;
    assert 33 * x + c == (x % 0x1_0000_0000) * 33 + c + 0x1_0000_0000 * (33 * q);
    ModSame((x % 0x1_0000_0000) * 33 + c, 33 * q);
  }

  lemma ModSame(x: int, k: int)
    ensures (x + 0x1_0000_0000 * k) % 0x1_0000_0000 == x % 0x1_0000_0000
  {
  }

  /** The slot where the search for s starts; never 0. */
  function FirstIndex(s: Str): (h: nat)
    ensures 1 <= h < HTAB_SIZE
  {
    var r := if MainHash(s) == 0 then 1 else MainHash(s);
    if r % HTAB_SIZE == 0 then 1 else r % HTAB_SIZE
  }

  function Stride(h: nat): (d: nat)
    ensures 1 <= d < HTAB_SIZE
  {
    1 + h % (HTAB_SIZE - 2)
  }

  /** Where the search for s goes in its k-th step. */
  function Probe(s: Str, k: nat): (idx: nat)
    ensures 1 <= idx <= HTAB_SIZE
  {
    Slot(FirstIndex(s), Stride(FirstIndex(s)), k)
  }

  /** The search starts at the remainder of the main hash, or at 1 if that is 0, and goes down
      in steps of 1 to 1019, around the 1021 slots. */
  lemma ProbeIs(s: Str, k: nat) returns (turns: int)
    ensures var r := MainHash(s) % 1021;
            FirstIndex(s) == if r == 0 then 1 else r
    ensures var h := FirstIndex(s);
            1 <= Probe(s, k) <= 1021 && Probe(s, k) == h - k * (1 + h % 1019) + 1021 * turns
  {
    hide MainHash, Slot;
    turns := SlotIs(FirstIndex(s), Stride(FirstIndex(s)), k);
  }

  predicate Holds(tab: seq<Entry>, idx: nat, s: Str)
    requires idx < |tab|
  {
    tab[idx].used == FirstIndex(s) && tab[idx].str == s
  }

  // ----- What the table is -----

  ghost function UsedSlots(tab: seq<Entry>): set<nat> {
    set idx: nat | idx < |tab| && tab[idx].used != 0
  }

  /** The search for s meets only used slots before its k-th step. */
  ghost predicate PathUsed(tab: seq<Entry>, s: Str, k: nat)
    requires |tab| == HTAB_SIZE + 1
  {
    forall j: nat :: j < k ==> tab[Probe(s, j)].used != 0
  }

  /** The string in slot idx is found there: no free slot lies before it on its path. */
  ghost predicate Reached(tab: seq<Entry>, idx: nat)
    requires |tab| == HTAB_SIZE + 1 && idx < |tab|
  {
    exists k: nat :: k < HTAB_SIZE && Probe(tab[idx].str, k) == idx && PathUsed(tab, tab[idx].str, k)
  }

  ghost predicate Valid(tab: seq<Entry>, filled: nat) {
    && |tab| == HTAB_SIZE + 1
    && tab[0].used == 0
    && filled == |UsedSlots(tab)|
    && (forall idx :: 1 <= idx < |tab| && tab[idx].used != 0 ==>
          tab[idx].used == FirstIndex(tab[idx].str) && Reached(tab, idx))
    && (forall i, j :: 1 <= i < j < |tab| && tab[i].used != 0 && tab[j].used != 0 ==> tab[i].str != tab[j].str)
  }

  /** The slot in which s is interned, if it is. */
  ghost predicate InternedAt(tab: seq<Entry>, s: Str, idx: nat) {
    1 <= idx < |tab| && tab[idx].used != 0 && tab[idx].str == s
  }

  // ----- The search -----

  /** How the search for s ends: at its slot, at a free one, or back where it started. */
  datatype Outcome = Found(idx: nat) | Free(idx: nat) | Exhausted

  function Search(tab: seq<Entry>, s: Str, k: nat): (o: Outcome)
    requires |tab| == HTAB_SIZE + 1 && k <= HTAB_SIZE
    ensures o.Found? || o.Free? ==> 1 <= o.idx <= HTAB_SIZE
    decreases HTAB_SIZE - k
  {
    if k == HTAB_SIZE then Exhausted
    else if tab[Probe(s, k)].used == 0 then Free(Probe(s, k))
    else if Holds(tab, Probe(s, k), s) then Found(Probe(s, k))
    else Search(tab, s, k + 1)
  }

  /** The new table, the new count of used slots, and the id; 0 stands for failure. */
  datatype Result = Result(tab: seq<Entry>, filled: nat, id: nat)

  function Intern(tab: seq<Entry>, filled: nat, s: Str, copyOk: bool): Result
    requires |tab| == HTAB_SIZE + 1
  {
    match Search(tab, s, 0)
    case Found(idx) => Result(tab, filled, idx)
    case Free(idx) =>
      if filled >= HTAB_SIZE || !copyOk then Result(tab, filled, 0)
      else Result(tab[idx := Entry(FirstIndex(s), s)], filled + 1, idx)
    case Exhausted =>
      if filled >= HTAB_SIZE || !copyOk then Result(tab, filled, 0)
      else Result(tab[FirstIndex(s) := Entry(FirstIndex(s), s)], filled + 1, FirstIndex(s))
  }

  /** The search ends at the string, at a free slot behind used ones, or has seen every slot
      of the table in use. */
  lemma {:induction false} SearchMeans(tab: seq<Entry>, s: Str, k: nat)
    requires |tab| == HTAB_SIZE + 1 && k <= HTAB_SIZE && PathUsed(tab, s, k)
    requires forall j: nat :: j < k ==> !Holds(tab, Probe(s, j), s)
    ensures match Search(tab, s, k)
            case Found(idx) => tab[idx].used != 0 && Holds(tab, idx, s)
            case Free(idx) =>
              && tab[idx].used == 0
              && (exists j: nat :: j < HTAB_SIZE && Probe(s, j) == idx && PathUsed(tab, s, j))
              && (forall j: nat :: j < HTAB_SIZE && PathUsed(tab, s, j + 1) ==> !Holds(tab, Probe(s, j), s))
            case Exhausted =>
              PathUsed(tab, s, HTAB_SIZE) && forall j: nat :: j < HTAB_SIZE ==> !Holds(tab, Probe(s, j), s)
    decreases HTAB_SIZE - k
  {
    if k < HTAB_SIZE {
      if tab[Probe(s, k)].used == 0 {
        assert PathUsed(tab, s, k);
        forall j: nat | j < HTAB_SIZE && PathUsed(tab, s, j + 1) ensures j < k && !Holds(tab, Probe(s, j), s) {
        }
      } else if !Holds(tab, Probe(s, k), s) {
        SearchMeans(tab, s, k + 1);
      }
    }
  }

  // ----- What interning does to a valid table -----

  /** The search for an interned string ends at its slot. */
  lemma SearchFinds(tab: seq<Entry>, filled: nat, s: Str, idx: nat)
    requires Valid(tab, filled) && InternedAt(tab, s, idx)
    ensures Search(tab, s, 0) == Found(idx)
  {
    hide Search, Slot, MainHash, FirstIndex, Stride, Probe;
    SearchMeans(tab, s, 0);
    var k: nat :| k < HTAB_SIZE && Probe(s, k) == idx && PathUsed(tab, s, k);
    assert PathUsed(tab, s, k + 1);
    assert Holds(tab, Probe(s, k), s);
  }

  lemma UsedInside(tab: seq<Entry>, filled: nat)
    requires Valid(tab, filled)
    ensures UsedSlots(tab) <= AllSlots(HTAB_SIZE) && |AllSlots(HTAB_SIZE)| == HTAB_SIZE
  {
    hide AllSlots;
    AllSlotsCount(HTAB_SIZE);
  }

  lemma Smaller<T>(a: set<T>, b: set<T>)
    requires a <= b
    ensures |a| <= |b|
  {
    assert b == a + (b - a);
  }

  /** The search meets a free slot exactly when there is one. */
  lemma FreeUnlessFull(tab: seq<Entry>, filled: nat, s: Str)
    requires Valid(tab, filled)
    ensures Search(tab, s, 0).Free? ==> filled < HTAB_SIZE
    ensures Search(tab, s, 0).Exhausted? ==> filled == HTAB_SIZE
  {
    hide AllSlots, Search, Slot, MainHash;
    UsedInside(tab, filled);
    SearchMeans(tab, s, 0);
    AllSlotsCount(HTAB_SIZE);
    match Search(tab, s, 0)
    case Found(idx) =>
    case Free(idx) =>
      Smaller(UsedSlots(tab) + {idx}, AllSlots(HTAB_SIZE));
    case Exhausted =>
      forall idx | idx in AllSlots(HTAB_SIZE) ensures idx in UsedSlots(tab) {
        var k := VisitsAll(FirstIndex(s), Stride(FirstIndex(s)), idx);
        assert tab[Probe(s, k)].used != 0;
      }
      Smaller(AllSlots(HTAB_SIZE), UsedSlots(tab));
      Smaller(UsedSlots(tab), AllSlots(HTAB_SIZE));
  }

  /** What a call returns.  An interned string gets its id and nothing changes.  Another one
      gets a slot that was free, and that is all that changes; it gets 0 exactly when the
      table is full or the copy fails, and then nothing changes. */
  lemma InternMeans(tab: seq<Entry>, filled: nat, s: Str, copyOk: bool)
    requires Valid(tab, filled)
    ensures var r := Intern(tab, filled, s, copyOk);
            if exists idx :: InternedAt(tab, s, idx) then InternedAt(tab, s, r.id) && r.tab == tab && r.filled == filled
            else if filled < HTAB_SIZE && copyOk then
              && 1 <= r.id <= HTAB_SIZE && tab[r.id].used == 0
              && r.tab == tab[r.id := Entry(FirstIndex(s), s)] && r.filled == filled + 1
              && exists j: nat :: j < HTAB_SIZE && Probe(s, j) == r.id && PathUsed(tab, s, j)
            else r == Result(tab, filled, 0)
  {
    hide Search, Slot, MainHash;
    SearchMeans(tab, s, 0);
    FreeUnlessFull(tab, filled, s);
    FoundIsInterned(tab, s);
    if idx :| InternedAt(tab, s, idx) {
      SearchFinds(tab, filled, s, idx);
    }
  }

  lemma FoundIsInterned(tab: seq<Entry>, s: Str)
    requires |tab| == HTAB_SIZE + 1
    ensures Search(tab, s, 0).Found? ==> InternedAt(tab, s, Search(tab, s, 0).idx)
  {
    SearchMeans(tab, s, 0);
  }

  lemma PathStaysUsed(tab: seq<Entry>, idx: nat, e: Entry, s: Str, k: nat)
    requires |tab| == HTAB_SIZE + 1 && idx < |tab| && e.used != 0 && PathUsed(tab, s, k)
    ensures PathUsed(tab[idx := e], s, k)
  {
  }

  /** Putting a string that is not interned into a free slot on its path. */
  lemma AddValid(tab: seq<Entry>, filled: nat, s: Str, idx: nat, k: nat)
    requires Valid(tab, filled) && 1 <= idx <= HTAB_SIZE && tab[idx].used == 0
    requires k < HTAB_SIZE && Probe(s, k) == idx && PathUsed(tab, s, k)
    requires !exists i :: InternedAt(tab, s, i)
    ensures Valid(tab[idx := Entry(FirstIndex(s), s)], filled + 1)
  {
    hide Slot, MainHash, FirstIndex, Stride, Probe;
    var e := Entry(FirstIndex(s), s);
    var tab' := tab[idx := e];
    FirstIndexUsed(s);
    assert UsedSlots(tab') == UsedSlots(tab) + {idx};
    forall i | 1 <= i < |tab'| && tab'[i].used != 0
      ensures tab'[i].used == FirstIndex(tab'[i].str) && Reached(tab', i)
    {
      if i == idx {
        PathStaysUsed(tab, idx, e, s, k);
      } else {
        var j: nat :| j < HTAB_SIZE && Probe(tab[i].str, j) == i && PathUsed(tab, tab[i].str, j);
        PathStaysUsed(tab, idx, e, tab[i].str, j);
      }
    }
    forall i | 1 <= i < |tab| && tab[i].used != 0 ensures tab[i].str != s {
      assert !InternedAt(tab, s, i);
    }
  }

  lemma FirstIndexUsed(s: Str)
    ensures FirstIndex(s) != 0
  {
  }

  /** Every call keeps the table valid. */
  lemma InternValid(tab: seq<Entry>, filled: nat, s: Str, copyOk: bool)
    requires Valid(tab, filled)
    ensures var r := Intern(tab, filled, s, copyOk);
            Valid(r.tab, r.filled)
  {
    hide Intern, Probe;
    InternMeans(tab, filled, s, copyOk);
    if !(exists idx :: InternedAt(tab, s, idx)) && filled < HTAB_SIZE && copyOk {
      var r := Intern(tab, filled, s, copyOk);
      var k: nat :| k < HTAB_SIZE && Probe(s, k) == r.id && PathUsed(tab, s, k);
      AddValid(tab, filled, s, r.id, k);
    }
  }

  lemma EmptyValid(tab: seq<Entry>)
    requires |tab| == HTAB_SIZE + 1 && forall i :: 0 <= i < |tab| ==> tab[i] == Entry(0, [])
    ensures Valid(tab, 0)
  {
    assert UsedSlots(tab) == {};
  }

  // ----- Histories of calls -----

  datatype Call = Call(s: Str, copyOk: bool)

  /** The calls of a program on a new table, and what each left and returned. */
  ghost predicate IsHistory(calls: seq<Call>, results: seq<Result>) {
    && |results| == |calls| + 1
    && |results[0].tab| == HTAB_SIZE + 1 && results[0].filled == 0
    && (forall i :: 0 <= i < |results[0].tab| ==> results[0].tab[i] == Entry(0, []))
    && forall k {:trigger calls[k]} :: 0 <= k < |calls| ==>
         && |results[k].tab| == HTAB_SIZE + 1
         && results[k + 1] == Intern(results[k].tab, results[k].filled, calls[k].s, calls[k].copyOk)
  }

  lemma {:induction false} HistoryValid(calls: seq<Call>, results: seq<Result>, k: nat)
    requires IsHistory(calls, results) && k < |results|
    ensures Valid(results[k].tab, results[k].filled)
  {
    hide Intern, Valid;
    if k == 0 {
      EmptyValid(results[0].tab);
    } else {
      HistoryValid(calls, results, k - 1);
      InternValid(results[k - 1].tab, results[k - 1].filled, calls[k - 1].s, calls[k - 1].copyOk);
    }
  }

  /** No slot in use is ever overwritten. */
  lemma {:induction false} UsedSlotsStay(calls: seq<Call>, results: seq<Result>, j: nat, k: nat, idx: nat)
    requires IsHistory(calls, results) && j <= k < |results| && idx < |results[j].tab| && results[j].tab[idx].used != 0
    ensures idx < |results[k].tab| && results[k].tab[idx] == results[j].tab[idx]
  {
    hide Intern, Valid;
    if j < k {
      UsedSlotsStay(calls, results, j, k - 1, idx);
      HistoryValid(calls, results, k - 1);
      assert calls[k - 1] == calls[k - 1];
      InternMeans(results[k - 1].tab, results[k - 1].filled, calls[k - 1].s, calls[k - 1].copyOk);
    }
  }

  /** A call with a non-zero id leaves its string interned under it. */
  lemma CallInterns(calls: seq<Call>, results: seq<Result>, i: nat)
    requires IsHistory(calls, results) && i < |calls| && results[i + 1].id != 0
    ensures InternedAt(results[i + 1].tab, calls[i].s, results[i + 1].id)
  {
    hide Intern, Valid;
    HistoryValid(calls, results, i);
    assert calls[i] == calls[i];
    InternMeans(results[i].tab, results[i].filled, calls[i].s, calls[i].copyOk);
    FirstIndexUsed(calls[i].s);
  }

  lemma StaysInterned(calls: seq<Call>, results: seq<Result>, i: nat, k: nat)
    requires IsHistory(calls, results) && i < k < |results|
    ensures results[i + 1].id != 0 ==> InternedAt(results[k].tab, calls[i].s, results[i + 1].id)
  {
    hide Intern, Valid;
    if results[i + 1].id != 0 {
      CallInterns(calls, results, i);
      UsedSlotsStay(calls, results, i + 1, k, results[i + 1].id);
    }
  }

  /** Once a string has an id, every later call with it returns that id. */
  lemma SameStringSameId(calls: seq<Call>, results: seq<Result>, i: nat, j: nat)
    requires IsHistory(calls, results) && i < j < |calls|
    requires calls[i].s == calls[j].s && results[i + 1].id != 0
    ensures results[j + 1].id == results[i + 1].id
  {
    hide Intern;
    StaysInterned(calls, results, i, j);
    HistoryValid(calls, results, j);
    assert calls[j] == calls[j];
    InternMeans(results[j].tab, results[j].filled, calls[j].s, calls[j].copyOk);
  }

  /** Different strings never share an id. */
  lemma DifferentStringsDifferentIds(calls: seq<Call>, results: seq<Result>, i: nat, j: nat)
    requires IsHistory(calls, results) && i < j < |calls|
    requires calls[i].s != calls[j].s && results[i + 1].id != 0
    ensures results[j + 1].id != results[i + 1].id
  {
    hide Intern, Valid;
    CallInterns(calls, results, i);
    UsedSlotsStay(calls, results, i + 1, j + 1, results[i + 1].id);
    if results[j + 1].id != 0 {
      CallInterns(calls, results, j);
    }
  }

  /** A call fails exactly when its string has no id yet and the table is full or the copy
      fails. */
  lemma FailsOnlyWhenFull(calls: seq<Call>, results: seq<Result>, k: nat)
    requires IsHistory(calls, results) && k < |calls|
    ensures results[k + 1].id == 0 <==>
              && (forall i :: 0 <= i < k && calls[i].s == calls[k].s ==> results[i + 1].id == 0)
              && (results[k].filled >= HTAB_SIZE || !calls[k].copyOk)
  {
    hide Intern, Valid;
    HistoryValid(calls, results, k);
    assert calls[k] == calls[k];
    InternMeans(results[k].tab, results[k].filled, calls[k].s, calls[k].copyOk);
    if idx :| InternedAt(results[k].tab, calls[k].s, idx) {
      var i := Interner(calls, results, k, idx);
      assert results[i + 1].id != 0;
    } else {
      forall i | 0 <= i < k && calls[i].s == calls[k].s ensures results[i + 1].id == 0 {
        StaysInterned(calls, results, i, k);
      }
    }
  }

  /** Every string in the table was put there by a call, under the id of its slot. */
  lemma {:induction false} Interner(calls: seq<Call>, results: seq<Result>, k: nat, idx: nat) returns (i: nat)
    requires IsHistory(calls, results) && k < |results| && 1 <= idx < |results[k].tab| && results[k].tab[idx].used != 0
    ensures i < k && calls[i].s == results[k].tab[idx].str && results[i + 1].id == idx
  {
    hide Intern, Valid;
    if k == 0 {
      assert false;
    } else {
      assert calls[k - 1] == calls[k - 1];
      HistoryValid(calls, results, k - 1);
      InternMeans(results[k - 1].tab, results[k - 1].filled, calls[k - 1].s, calls[k - 1].copyOk);
      if results[k - 1].tab[idx].used != 0 {
        UsedSlotsStay(calls, results, k - 1, k, idx);
        i := Interner(calls, results, k - 1, idx);
      } else {
        i := k - 1;
      }
    }
  }

  // ----- The table as the library keeps it -----

  class Table {
    var entries: array?<Entry>
    var filled: nat

    constructor ()
      ensures entries == null && filled == 0
    {
      entries, filled := null, 0;
    }

    ghost predicate Ready()
      reads `entries, `filled, entries
    {
      entries != null && Valid(entries[..], filled)
    }

    /** htab_create; allocOk says whether calloc succeeds. */
    method Create(allocOk: bool) returns (ok: bool)
      requires entries != null ==> Ready()
      modifies this
      ensures ok <==> old(entries) != null || allocOk
      ensures ok ==> Ready()
      ensures old(entries) != null ==> entries == old(entries) && filled == old(filled)
      ensures old(entries) == null && ok ==>
                fresh(entries) && filled == 0 && forall i :: 0 <= i < entries.Length ==> entries[i].used == 0
    {
      if entries != null {
        return true;
      }
      filled := 0;
      if !allocOk {
        return false;
      }
      entries := new Entry[HTAB_SIZE + 1](_ => Entry(0, []));
      EmptyValid(entries[..]);
      return true;
    }

    /** The loop of htab_hash over the characters. */
    method MainHashOf(s: Str) returns (r: nat)
      ensures r == MainHash(s)
    {
      r := 5381;
      var sz := 0;
      while sz < |s|
        invariant 0 <= sz <= |s| && r == MainHash(s[..sz])
      {
        assert s[..sz + 1][..sz] == s[..sz];
        r := (r * 32 + r + s[sz]) % WORD;
        sz := sz + 1;
      }
      assert s[..|s|] == s;
    }

    /** The collision loop of htab_hash: whether the string is there, and the slot the search
        ends at. */
    method ProbeOn(s: Str, hval: nat) returns (found: bool, idx: nat)
      requires entries != null && entries.Length == HTAB_SIZE + 1 && hval == FirstIndex(s)
      requires entries[hval].used != 0 && !Holds(entries[..], hval, s)
      ensures match Search(entries[..], s, 0)
              case Found(i) => found && idx == i
              case Free(i) => !found && idx == i
              case Exhausted => !found && idx == hval
    {
      hide MainHash, FirstIndex, Stride;
      ghost var tab := entries[..];
      var hval2 := StrideOf(hval);
      idx := hval;
      ghost var k: nat := 0;
      while true
        invariant k < HTAB_SIZE && idx == Slot(hval, hval2, k) == Probe(s, k)
        invariant tab[idx].used != 0 && !Holds(tab, idx, s)
        invariant Search(tab, s, 0) == Search(tab, s, k)
        decreases HTAB_SIZE - k
      {
        if idx <= hval2 {
          idx := HTAB_SIZE + idx - hval2;
        } else {
          idx := idx - hval2;
        }
        k := k + 1;
        ReturnsToStart(hval, hval2, k);
        if idx == hval {
          return false, idx;
        }
        if entries[idx].used == hval && entries[idx].str == s {
          return true, idx;
        }
        if entries[idx].used == 0 {
          return false, idx;
        }
      }
    }

    method StrideOf(hval: nat) returns (hval2: nat)
      ensures hval2 == Stride(hval)
    {
      hval2 := 1 + hval % (HTAB_SIZE - 2);
    }

    method FirstIndexOf(s: Str) returns (hval: nat)
      ensures hval == FirstIndex(s)
    {
      var r := MainHashOf(s);
      if r == 0 {
        r := r + 1;
      }
      hval := r % HTAB_SIZE;
      if hval == 0 {
        hval := hval + 1;
      }
    }

    /** The search of htab_hash. */
    method Lookup(s: Str) returns (found: bool, idx: nat, hval: nat)
      requires entries != null && entries.Length == HTAB_SIZE + 1
      ensures hval == FirstIndex(s) && 1 <= idx <= HTAB_SIZE
      ensures match Search(entries[..], s, 0)
              case Found(i) => found && idx == i
              case Free(i) => !found && idx == i
              case Exhausted => !found && idx == hval
    {
      hide MainHash, FirstIndex, Stride;
      hval := FirstIndexOf(s);
      idx := hval;
      assert Probe(s, 0) == hval;
      found := false;
      if entries[idx].used != 0 {
        if entries[idx].used == hval && entries[idx].str == s {
          return true, idx, hval;
        }
        found, idx := ProbeOn(s, hval);
      }
    }

    /** htab_hash; no string (a null pointer) gets 0. */
    method Hash(str: Option<Str>, copyOk: bool) returns (id: nat)
      requires Ready()
      modifies `filled, entries
      ensures Ready()
      ensures match str
              case None => id == 0 && entries[..] == old(entries[..]) && filled == old(filled)
              case Some(s) => Result(entries[..], filled, id) == Intern(old(entries[..]), old(filled), s, copyOk)
    {
      hide MainHash, FirstIndex, Search, Valid;
      if str.None? {
        return 0;
      }
      var s := str.value;
      ValidLength(entries[..], filled);
      InternValid(entries[..], filled, s, copyOk);
      var found, idx, hval := Lookup(s);
      if found {
        return idx;
      }
      if filled >= HTAB_SIZE || !copyOk {
        return 0;
      }
      ghost var before := entries[..];
      entries[idx] := Entry(hval, s);
      assert entries[..] == before[idx := Entry(hval, s)];
      filled := filled + 1;
      return idx;
    }
  }

  lemma ValidLength(tab: seq<Entry>, filled: nat)
    requires Valid(tab, filled)
    ensures |tab| == HTAB_SIZE + 1
  {
  }
}
