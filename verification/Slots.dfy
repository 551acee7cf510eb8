// Hamilton (largest remainder) slot apportionment (slots.go).  Every 32- and
// 64-bit operation wraps where the source's does; `Fits` in
// Apportionment says when none of them matters.
module Slots {
  import opened Prelude
  import opened Sums
  import opened Filters
  import opened Permutations
  import opened Arithmetic

  datatype Validator = Validator(address: string, balance: uint64)
  datatype Entry = Entry(address: string, stake: nat)
  datatype Share = Share(elected: bool, count: nat)
  datatype Panic = IndexOutOfRange

  const NOT_ELECTED := Share(false, 0)

  // ---- addresses ------------------------------------------------------------

  function Upper(c: char): char {
    if 'a' <= c <= 'z' then c - ('a' - 'A') else c
  }

  function NormalizeAddr(s: string): string {
    if s == "" then ""
    else
      var n := |s| - 1;
      NormalizeAddr(s[..n]) + if s[n] == ' ' then "" else [Upper(s[n])]
  }

  // An address without its spaces, in capitals.
  ghost predicate Normalized(s: string, n: string, places: seq<nat>) {
    && |n| == |places| && Places(places, |s|)
    && (forall i :: 0 <= i < |s| ==> (i in places <==> s[i] != ' '))
    && forall k :: 0 <= k < |places| ==>
         var c := s[places[k]];
         if 'a' <= c <= 'z' then n[k] as int == c as int - 32 else n[k] == c
  }

  function Capital(c: char): Option<char> {
    if c == ' ' then None else Some(Upper(c))
  }

  lemma {:induction false} NormalizeKeeps(s: string)
    ensures NormalizeAddr(s) == Keep(s, Capital)
  {
    if s != "" { NormalizeKeeps(s[..|s| - 1]); }
  }

  lemma NormalizeExactly(s: string) returns (places: seq<nat>)
    ensures Normalized(s, NormalizeAddr(s), places)
  {
    NormalizeKeeps(s);
    places := KeepKeeps(s, Capital);
  }

  // The order of the source's `<` on strings.
  predicate Before(a: string, b: string) {
    b != "" && (a == "" || a[0] < b[0] || (a[0] == b[0] && Before(a[1..], b[1..])))
  }

  // Lexicographic: equal up to some place, where a has ended or has the smaller
  // character.
  lemma {:induction false} BeforeExactly(a: string, b: string)
    ensures Before(a, b) <==> exists k: nat :: ComesFirstAt(a, b, k)
  {
    if a != "" && b != "" && a[0] == b[0] {
      BeforeExactly(a[1..], b[1..]);
      forall k: nat ensures ComesFirstAt(a, b, k + 1) <==> ComesFirstAt(a[1..], b[1..], k) {
        SameHead(a, b, k);
      }
      if k: nat :| ComesFirstAt(a, b, k) { assert ComesFirstAt(a[1..], b[1..], k - 1); }
      if k: nat :| ComesFirstAt(a[1..], b[1..], k) { assert ComesFirstAt(a, b, k + 1); }
    } else {
      forall k: nat | k > 0 ensures !ComesFirstAt(a, b, k) {
        assert k <= |a| && k <= |b| ==> a[..k][0] == a[0] && b[..k][0] == b[0];
      }
      assert Before(a, b) <==> ComesFirstAt(a, b, 0);
    }
  }

  predicate ComesFirstAt(a: string, b: string, k: nat) {
    k <= |a| && k < |b| && a[..k] == b[..k] && (k == |a| || a[k] < b[k])
  }

  lemma SameHead(a: string, b: string, k: nat)
    requires a != "" && b != "" && a[0] == b[0]
    ensures ComesFirstAt(a, b, k + 1) <==> ComesFirstAt(a[1..], b[1..], k)
  {
    if k < |a| && k < |b| {
      assert a[..k + 1] == [a[0]] + a[1..][..k] && b[..k + 1] == [b[0]] + b[1..][..k];
      assert a[..k + 1][1..] == a[1..][..k] && b[..k + 1][1..] == b[1..][..k];
    }
  }

  lemma {:induction false} BeforeTotal(a: string, b: string)
    ensures Before(a, b) || Before(b, a) || a == b
    ensures !(Before(a, b) && Before(b, a))
    ensures !Before(a, a)
  {
    if a != "" && b != "" { BeforeTotal(a[1..], b[1..]); }
    if a != "" { BeforeTotal(a[1..], a[1..]); }
    if a != "" && b != "" && a[0] == b[0] && a[1..] == b[1..] {
      assert a == [a[0]] + a[1..] && b == [b[0]] + b[1..];
    }
  }

  lemma {:induction false} BeforeTransitive(a: string, b: string, c: string)
    requires Before(a, b) && Before(b, c)
    ensures Before(a, c)
  {
    if a != "" && a[0] == b[0] && b[0] == c[0] { BeforeTransitive(a[1..], b[1..], c[1..]); }
  }

  // ---- quotas ---------------------------------------------------------------

  function ToEntry(v: Validator): seq<Entry> {
    var n := NormalizeAddr(v.address);
    if n == "" then [] else [Entry(n, v.balance as nat)]
  }

  function Entries(validators: seq<Validator>): seq<Entry> {
    Collect(validators, ToEntry)
  }

  // The entries are the validators whose address is not blank, in order.
  ghost predicate Listed(validators: seq<Validator>, es: seq<Entry>, places: seq<nat>) {
    && |es| == |places| && Places(places, |validators|)
    && (forall i :: 0 <= i < |validators| ==> (i in places <==> exists k :: 0 <= k < |validators[i].address| && validators[i].address[k] != ' '))
    && forall k :: 0 <= k < |places| ==>
         es[k] == Entry(NormalizeAddr(validators[places[k]].address), validators[places[k]].balance as nat)
  }

  function NonBlank(v: Validator): Option<Entry> {
    if NormalizeAddr(v.address) == "" then None else Some(Entry(NormalizeAddr(v.address), v.balance as nat))
  }

  lemma {:induction false} EntriesKeep(validators: seq<Validator>)
    ensures Entries(validators) == Keep(validators, NonBlank)
  {
    if validators != [] { EntriesKeep(validators[..|validators| - 1]); }
  }

  lemma BlankExactly(s: string)
    ensures NormalizeAddr(s) != "" <==> exists k :: 0 <= k < |s| && s[k] != ' '
  {
    var places := NormalizeExactly(s);
    if k :| 0 <= k < |s| && s[k] != ' ' { assert k in places; }
    if NormalizeAddr(s) != "" { assert places[0] in places; }
  }

  lemma EntriesExactly(validators: seq<Validator>) returns (places: seq<nat>)
    ensures Listed(validators, Entries(validators), places)
  {
    EntriesKeep(validators);
    places := KeepKeeps(validators, NonBlank);
    forall i | 0 <= i < |validators|
      ensures i in places <==> exists k :: 0 <= k < |validators[i].address| && validators[i].address[k] != ' '
    {
      BlankExactly(validators[i].address);
    }
  }

  function Stakes(es: seq<Entry>): seq<nat> {
    seq(|es|, i requires 0 <= i < |es| => es[i].stake)
  }

  function TotalStake(es: seq<Entry>): nat {
    Total(Stakes(es)) % TWO64
  }

  function Scaled(stake: nat, slots: nat): nat {
    stake * slots % TWO64
  }

  function Quota(stake: nat, slots: nat, total: nat): (quota: nat)
    requires total > 0
    ensures quota < TWO32
  {
    Scaled(stake, slots) / total % TWO32
  }

  function Remainder(stake: nat, slots: nat, total: nat): nat
    requires total > 0
  {
    Scaled(stake, slots) % total
  }

  function Quotas(es: seq<Entry>, slots: nat): seq<nat>
    requires TotalStake(es) > 0
  {
    seq(|es|, i requires 0 <= i < |es| => Quota(es[i].stake, slots, TotalStake(es)))
  }

  function Remainders(es: seq<Entry>, slots: nat): seq<nat>
    requires TotalStake(es) > 0
  {
    seq(|es|, i requires 0 <= i < |es| => Remainder(es[i].stake, slots, TotalStake(es)))
  }

  predicate InSet(es: seq<Entry>, want: string) {
    exists i :: 0 <= i < |es| && es[i].address == want
  }

  // What the sort compares: remainder, then address.
  datatype Key = Key(remainder: nat, address: string)

  function KeysFrom(es: seq<Entry>, remainders: seq<nat>): seq<Key>
    requires |remainders| == |es|
  {
    seq(|es|, i requires 0 <= i < |es| => Key(remainders[i], es[i].address))
  }

  function Keys(es: seq<Entry>, slots: nat): seq<Key>
    requires TotalStake(es) > 0
  {
    KeysFrom(es, Remainders(es, slots))
  }

  function Leftover(es: seq<Entry>, slots: nat): nat
    requires TotalStake(es) > 0
  {
    (slots - Total(Quotas(es, slots)) % TWO32) % TWO32
  }

  // The less function handed to the sort.
  predicate Ahead(a: Key, b: Key) {
    if a.remainder != b.remainder then a.remainder > b.remainder else Before(a.address, b.address)
  }

  // Where a stable sort of 0, 1, 2, ... puts i relative to j.
  predicate Beats(keys: seq<Key>, i: nat, j: nat)
    requires i < |keys| && j < |keys|
  {
    Ahead(keys[i], keys[j]) || (keys[i] == keys[j] && i < j)
  }

  function Winners(keys: seq<Key>, i: nat): set<nat>
    requires i < |keys|
  {
    set j: nat | j < |keys| && Beats(keys, j, i)
  }

  function Rank(keys: seq<Key>, i: nat): nat
    requires i < |keys|
  {
    |Winners(keys, i)|
  }

  // The slots entry i ends up with: its quota, and one more if fewer entries
  // beat it than there are slots left over.
  function Count(es: seq<Entry>, slots: nat, i: nat): nat
    requires TotalStake(es) > 0 && i < |es|
  {
    var extra := if Rank(Keys(es, slots), i) < Leftover(es, slots) then 1 else 0;
    (Quotas(es, slots)[i] + extra) % TWO32
  }

  function Counts(es: seq<Entry>, slots: nat): seq<nat>
    requires TotalStake(es) > 0
  {
    seq(|es|, i requires 0 <= i < |es| => Count(es, slots, i))
  }

  // ---- the stable sort ------------------------------------------------------

  lemma AheadOrder(a: Key, b: Key, c: Key)
    ensures !(Ahead(a, b) && Ahead(b, a))
    ensures Ahead(a, b) || Ahead(b, a) || a == b
    ensures Ahead(a, b) && Ahead(b, c) ==> Ahead(a, c)
  {
    BeforeTotal(a.address, b.address);
    if Before(a.address, b.address) && Before(b.address, c.address) {
      BeforeTransitive(a.address, b.address, c.address);
    }
  }

  function Insert(keys: seq<Key>, order: seq<nat>, x: nat): (r: seq<nat>)
    requires x < |keys| && forall k :: 0 <= k < |order| ==> order[k] < |keys|
  {
    if order == [] then [x]
    else if Ahead(keys[x], keys[order[0]]) then [x] + order
    else [order[0]] + Insert(keys, order[1..], x)
  }

  ghost predicate Ordered(keys: seq<Key>, order: seq<nat>) {
    && (forall k :: 0 <= k < |order| ==> order[k] < |keys|)
    && forall a, b :: 0 <= a < b < |order| ==> Beats(keys, order[a], order[b])
  }

  lemma {:induction false} InsertExactly(keys: seq<Key>, order: seq<nat>, x: nat)
    requires x < |keys| && forall k :: 0 <= k < |order| ==> order[k] < |keys|
    ensures |Insert(keys, order, x)| == |order| + 1
    ensures forall y :: y in Insert(keys, order, x) <==> y in order || y == x
  {
    if order != [] && !Ahead(keys[x], keys[order[0]]) {
      InsertExactly(keys, order[1..], x);
      assert order == [order[0]] + order[1..];
    }
  }

  lemma {:induction false} InsertOrdered(keys: seq<Key>, order: seq<nat>, x: nat)
    requires x < |keys| && Ordered(keys, order) && forall k :: 0 <= k < |order| ==> order[k] < x
    ensures Ordered(keys, Insert(keys, order, x))
  {
    if order != [] {
      if Ahead(keys[x], keys[order[0]]) {
        forall b | 0 <= b < |order| ensures Beats(keys, x, order[b]) {
          AheadOrder(keys[x], keys[order[0]], keys[order[b]]);
        }
        FirstBeatsRest(keys, x, order);
      } else {
        InsertOrdered(keys, order[1..], x);
        StaysFirst(keys, order, x);
        FirstBeatsRest(keys, order[0], Insert(keys, order[1..], x));
      }
    }
  }

  lemma FirstBeatsRest(keys: seq<Key>, first: nat, rest: seq<nat>)
    requires first < |keys| && Ordered(keys, rest)
    requires forall b :: 0 <= b < |rest| ==> Beats(keys, first, rest[b])
    ensures Ordered(keys, [first] + rest)
  {
  }

  // The head beats everything after it, the inserted index included.
  lemma {:induction false} StaysFirst(keys: seq<Key>, order: seq<nat>, x: nat)
    requires x < |keys| && order != [] && Ordered(keys, order) && forall k :: 0 <= k < |order| ==> order[k] < x
    requires !Ahead(keys[x], keys[order[0]])
    ensures forall b :: 0 <= b < |Insert(keys, order[1..], x)| ==>
              Insert(keys, order[1..], x)[b] < |keys| && Beats(keys, order[0], Insert(keys, order[1..], x)[b])
  {
    InsertExactly(keys, order[1..], x);
    AheadOrder(keys[order[0]], keys[x], keys[x]);
    var rest := Insert(keys, order[1..], x);
    forall b | 0 <= b < |rest| ensures rest[b] < |keys| && Beats(keys, order[0], rest[b]) {
      assert rest[b] in rest;
      if rest[b] != x {
        var c :| 0 <= c < |order[1..]| && order[1..][c] == rest[b];
        assert order[c + 1] == rest[b];
      }
    }
  }

  // sort.SliceStable over 0 .. n-1.
  function StableOrder(keys: seq<Key>, n: nat): (order: seq<nat>)
    requires n <= |keys|
    ensures |order| == n && (forall y :: y in order <==> 0 <= y < n)
    ensures Ordered(keys, order)
  {
    if n == 0 then []
    else
      var order := StableOrder(keys, n - 1);
      assert forall k :: 0 <= k < |order| ==> order[k] in order;
      InsertExactly(keys, order, n - 1);
      InsertOrdered(keys, order, n - 1);
      Insert(keys, order, n - 1)
  }

  lemma BeatsIrreflexive(keys: seq<Key>, i: nat, j: nat)
    requires i < |keys| && j < |keys|
    ensures Beats(keys, i, j) ==> i != j && !Beats(keys, j, i)
  {
    AheadOrder(keys[i], keys[j], keys[i]);
  }

  // The entry sorted to place k is the one that k others beat.
  lemma RankIsPlace(keys: seq<Key>, order: seq<nat>, k: nat)
    requires |order| == |keys| && (forall y :: y in order <==> 0 <= y < |keys|) && Ordered(keys, order)
    requires k < |order|
    ensures Distinct(order)
    ensures Rank(keys, order[k]) == k
  {
    forall a, b | 0 <= a < b < |order| ensures order[a] != order[b] {
      BeatsIrreflexive(keys, order[a], order[b]);
    }
    var first := Elements(order[..k]);
    forall y: nat ensures y in Winners(keys, order[k]) <==> y in first {
      if y < |keys| {
        assert y in order;
        var m :| 0 <= m < |order| && order[m] == y;
        BeatsIrreflexive(keys, y, order[k]);
        if m < k { assert order[..k][m] == y; }
      } else {
        assert y !in order;
      }
    }
    assert Winners(keys, order[k]) == first;
    DistinctCount(order[..k]);
    assert |first| == k;
  }

  // ---- the source's procedure -----------------------------------------------

  lemma EntryAdded(es: seq<Entry>, e: Entry, want: string)
    ensures TotalStake(es + [e]) == (TotalStake(es) + e.stake) % TWO64
    ensures InSet(es + [e], want) <==> InSet(es, want) || e.address == want
  {
    assert Stakes(es + [e]) == Stakes(es) + [e.stake];
    assert (es + [e])[|es|] == e;
    assert forall i :: 0 <= i < |es| ==> (es + [e])[i] == es[i];
  }

  method BuildEntries(validators: seq<Validator>, want: string) returns (es: seq<Entry>, total: nat, inSet: bool)
    ensures es == Entries(validators) && total == TotalStake(es)
    ensures inSet <==> InSet(es, want)
  {
    es, total, inSet := [], 0, false;
    for k := 0 to |validators|
      invariant es == Entries(validators[..k])
      invariant total == TotalStake(es)
      invariant inSet <==> InSet(es, want)
    {
      assert validators[..k + 1][..k] == validators[..k];
      var n := NormalizeAddr(validators[k].address);
      if n != "" {
        var e := Entry(n, validators[k].balance as nat);
        EntryAdded(es, e, want);
        es, total, inSet := es + [e], (total + e.stake) % TWO64, inSet || n == want;
      }
    }
    assert validators[..|validators|] == validators;
  }

  // The quotas and remainders, in place, and how many slots they use.
  method ComputeQuotas(es: seq<Entry>, slots: nat, total: nat, seats: array<nat>, remainder: array<nat>)
    returns (used: nat)
    requires total == TotalStake(es) > 0
    requires seats.Length == remainder.Length == |es| && seats != remainder
    modifies seats, remainder
    ensures seats[..] == Quotas(es, slots)
    ensures remainder[..] == Remainders(es, slots)
    ensures used == Total(Quotas(es, slots)) % TWO32
  {
    used := 0;
    for i := 0 to |es|
      invariant forall k :: 0 <= k < i ==> seats[k] == Quotas(es, slots)[k] && remainder[k] == Remainders(es, slots)[k]
      invariant used == Total(Quotas(es, slots)[..i]) % TWO32
    {
      var prod := Scaled(es[i].stake, slots);
      seats[i] := prod / total % TWO32;
      remainder[i] := prod % total;
      UsedGrows(Quotas(es, slots), i);
      used := (used + seats[i]) % TWO32;
    }
    assert Quotas(es, slots)[..|es|] == Quotas(es, slots);
  }

  lemma UsedGrows(quotas: seq<nat>, i: nat)
    requires i < |quotas|
    ensures (Total(quotas[..i]) % TWO32 + quotas[i]) % TWO32 == Total(quotas[..i + 1]) % TWO32
  {
    assert quotas[..i + 1][..i] == quotas[..i];
  }

  // One more slot for each of the first `leftover` entries in sorted order;
  // running past the last one is an index out of range.
  method GiveLeftover(seats: array<nat>, order: seq<nat>, leftover: nat) returns (panics: bool)
    requires |order| == seats.Length && Distinct(order) && forall k :: 0 <= k < |order| ==> order[k] < seats.Length
    modifies seats
    ensures panics <==> leftover > |order|
    ensures !panics ==> seats[..] == WithExtras(old(seats[..]), order[..leftover])
  {
    var i: nat := 0;
    while i < leftover
      invariant i <= leftover && i <= |order|
      invariant forall k :: 0 <= k < seats.Length ==>
                  seats[k] == if k in order[..i] then (old(seats[k]) + 1) % TWO32 else old(seats[k])
    {
      if i >= |order| { return true; }
      assert order[i] !in order[..i];
      assert order[..i + 1] == order[..i] + [order[i]];
      seats[order[i]] := (seats[order[i]] + 1) % TWO32;
      i := i + 1;
    }
    panics := false;
  }

  function WithExtras(quotas: seq<nat>, first: seq<nat>): seq<nat> {
    seq(|quotas|, i requires 0 <= i < |quotas| => if i in first then (quotas[i] + 1) % TWO32 else quotas[i])
  }

  // The whole apportionment, before the entry asked for is looked up.
  method Apportion(es: seq<Entry>, slots: nat, total: nat) returns (r: Result<array<nat>, Panic>)
    requires total == TotalStake(es) > 0
    ensures r.Failure? <==> Leftover(es, slots) > |es|
    ensures r.Success? ==> fresh(r.value) && r.value[..] == Counts(es, slots)
  {
    var seats, remainder := new nat[|es|], new nat[|es|];
    var used := ComputeQuotas(es, slots, total, seats, remainder);
    var leftover := (slots - used) % TWO32;
    var keys := KeysFrom(es, remainder[..]);
    var order := StableOrder(keys, |es|);
    SortedRanks(keys, order);
    var panics := GiveLeftover(seats, order, leftover);
    if panics { return Failure(IndexOutOfRange); }
    CountsByPlace(es, slots, order);
    r := Success(seats);
  }

  // Handing out by sorted place is handing out by rank.
  lemma {:induction false} CountsByPlace(es: seq<Entry>, slots: nat, order: seq<nat>)
    requires TotalStake(es) > 0 && Leftover(es, slots) <= |order| == |es|
    requires order == StableOrder(Keys(es, slots), |es|)
    ensures WithExtras(Quotas(es, slots), order[..Leftover(es, slots)]) == Counts(es, slots)
  {
    SortedRanks(Keys(es, slots), order);
    var first := order[..Leftover(es, slots)];
    forall i | 0 <= i < |es| ensures WithExtras(Quotas(es, slots), first)[i] == Count(es, slots, i) {
      NoWrap(Quotas(es, slots)[i], TWO32);
    }
  }

  lemma SortedRanks(keys: seq<Key>, order: seq<nat>)
    requires |order| == |keys| && (forall y :: y in order <==> 0 <= y < |keys|) && Ordered(keys, order)
    ensures Distinct(order)
    ensures forall i, n: nat :: 0 <= i < |keys| && n <= |order| ==> (i in order[..n] <==> Rank(keys, i) < n)
  {
    forall k | 0 <= k < |order| ensures Rank(keys, order[k]) == k && Distinct(order) {
      RankIsPlace(keys, order, k);
    }
    forall i, n: nat | 0 <= i < |keys| && n <= |order| ensures i in order[..n] <==> Rank(keys, i) < n {
      assert i in order;
      var k :| 0 <= k < |order| && order[k] == i;
      if k < n { assert order[..n][k] == i; }
    }
  }

  // Entry i is the one the address is looked up at.
  predicate FirstAt(es: seq<Entry>, want: string, i: nat) {
    i < |es| && es[i].address == want && forall k :: 0 <= k < i ==> es[k].address != want
  }

  method SlotShare(addr: string, validators: seq<Validator>, slots: uint32) returns (r: Result<Share, Panic>)
    ensures var es, want, n := Entries(validators), NormalizeAddr(addr), slots as nat;
            if want == "" || n == 0 || TotalStake(es) == 0 || !InSet(es, want)
            then r == Success(NOT_ELECTED)
            else if Leftover(es, n) > |es| then r == Failure(IndexOutOfRange)
            else forall i :: FirstAt(es, want, i) ==> r == Success(Share(Count(es, n, i) > 0, Count(es, n, i)))
  {
    var want := NormalizeAddr(addr);
    if want == "" || slots == 0 || |validators| == 0 { return Success(NOT_ELECTED); }
    var es, total, inSet := BuildEntries(validators, want);
    if !inSet || total == 0 { return Success(NOT_ELECTED); }
    var seats := Apportion(es, slots as nat, total);
    if seats.Failure? { return Failure(IndexOutOfRange); }
    var i := FindFirst(es, want);
    assert seats.value[i] == seats.value[..][i] == Count(es, slots as nat, i);
    r := Success(Share(seats.value[i] > 0, seats.value[i]));
  }

  method FindFirst(es: seq<Entry>, want: string) returns (i: nat)
    requires InSet(es, want)
    ensures FirstAt(es, want, i) && forall k :: FirstAt(es, want, k) ==> k == i
  {
    i := 0;
    while es[i].address != want
      invariant i < |es| && forall k :: 0 <= k < i ==> es[k].address != want
      decreases |es| - i
    {
      i := i + 1;
    }
  }
}
