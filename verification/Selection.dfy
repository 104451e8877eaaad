/**
  Orderings computed in chunks through a frame of 64 slots, against plain ones.

  The kernel sees one frame at a time and knows one comparison. The host merges the
  winners of all chunks, one selection after another. Row numbers are below 2^63, where
  the host passes them on unchanged.
 */
module Selection {
  import opened Options
  import opened Collections

  const SLOTS := 64

  datatype Error = InvalidInput | Unavailable | Capacity

  // ----- lists in order

  /** Each entry precedes all later ones. */
  ghost predicate InOrder(list: seq<nat>, precedes: (nat, nat) -> bool) {
    forall i, j | 0 <= i < j < |list| :: precedes(list[i], list[j])
  }

  ghost predicate Antisymmetric(precedes: (nat, nat) -> bool) {
    forall a: nat, b: nat :: precedes(a, b) ==> !precedes(b, a)
  }

  ghost predicate SameEntries(a: seq<nat>, b: seq<nat>) {
    forall n: nat :: n in a <==> n in b
  }

  /** Two lists in the same order with the same entries are the same list. */
  lemma {:induction false} OrderIsUnique(a: seq<nat>, b: seq<nat>, precedes: (nat, nat) -> bool)
    requires Antisymmetric(precedes)
    requires InOrder(a, precedes) && InOrder(b, precedes)
    requires SameEntries(a, b)
    ensures a == b
  {
    if a == [] {
      NoEntries(b);
    } else {
      assert a[0] in b && b != [];
      assert b[0] in a;
      var i :| 0 <= i < |b| && b[i] == a[0];
      var j :| 0 <= j < |a| && a[j] == b[0];
      assert a[0] == b[0];
      forall n: nat
        ensures n in a[1..] <==> n in b[1..]
      {
        NotAgain(a, n, precedes);
        NotAgain(b, n, precedes);
      }
      OrderIsUnique(a[1..], b[1..], precedes);
    }
  }

  lemma NoEntries(list: seq<nat>)
    requires SameEntries([], list)
    ensures list == []
  {
    if list != [] {
      HasFirst(list);
      assert false;
    }
  }

  lemma HasFirst(list: seq<nat>)
    requires list != []
    ensures list[0] in list
  {
  }

  lemma NotAgain(list: seq<nat>, n: nat, precedes: (nat, nat) -> bool)
    requires list != [] && Antisymmetric(precedes) && InOrder(list, precedes)
    ensures n in list[1..] <==> n in list && n != list[0]
  {
    if n in list[1..] {
      var i :| 0 <= i < |list[1..]| && list[1..][i] == n;
      assert list[i + 1] == n && precedes(list[0], list[i + 1]);
    }
  }

  /** The entries of a list that are marked, in the same order. */
  function Keep(list: seq<nat>, marked: nat -> bool): (kept: seq<nat>) {
    if list == [] then []
    else (if marked(list[0]) then [list[0]] else []) + Keep(list[1..], marked)
  }

  lemma {:induction false} KeepEntries(list: seq<nat>, marked: nat -> bool, n: nat)
    ensures n in Keep(list, marked) <==> n in list && marked(n)
  {
    if list != [] {
      KeepEntries(list[1..], marked, n);
    }
  }

  lemma {:induction false} KeepInOrder(list: seq<nat>, marked: nat -> bool, precedes: (nat, nat) -> bool)
    requires InOrder(list, precedes)
    ensures InOrder(Keep(list, marked), precedes)
  {
    if list != [] {
      var rest := Keep(list[1..], marked);
      KeepInOrder(list[1..], marked, precedes);
      if marked(list[0]) {
        forall j | 0 <= j < |rest|
          ensures precedes(list[0], rest[j])
        {
          KeepEntries(list[1..], marked, rest[j]);
          var k :| 0 <= k < |list[1..]| && list[1..][k] == rest[j];
          assert list[k + 1] == rest[j];
        }
      }
    }
  }

  // ----- the oldest eligible record

  /** A record's time and id; a negative time makes it ineligible. */
  type Record = (int, int)

  predicate Eligible(r: Record) { r.0 >= 0 }

  predicate Older(a: Record, b: Record) {
    a.0 < b.0 || (a.0 == b.0 && a.1 < b.1)
  }

  /** The eligible record that no other is older than; the first of these if several are equal. */
  predicate IsOldest(records: seq<Record>, i: nat) {
    && i < |records|
    && Eligible(records[i])
    && (forall j | 0 <= j < i :: Eligible(records[j]) ==> Older(records[i], records[j]))
    && (forall j | i < j < |records| :: Eligible(records[j]) ==> !Older(records[j], records[i]))
  }

  predicate NoneEligible(records: seq<Record>) {
    forall j | 0 <= j < |records| :: !Eligible(records[j])
  }

  /** The thirty-two records of a frame. */
  function Rows(frame: seq<int>): (rows: seq<Record>)
    requires |frame| == SLOTS
    ensures |rows| == 32
    ensures forall i | 0 <= i < 32 :: rows[i] == (frame[2 * i], frame[2 * i + 1])
  {
    seq(32, i requires 0 <= i < 32 => (frame[2 * i], frame[2 * i + 1]))
  }

  /** The kernel's choice among the records of one frame; -1 when there is none. */
  method OldestInFrame(frame: array<int>) returns (best: int)
    requires frame.Length == SLOTS
    ensures if best < 0 then best == -1 && NoneEligible(Rows(frame[..])) else IsOldest(Rows(frame[..]), best)
  {
    ghost var rows := Rows(frame[..]);
    best := -1;
    var time, id := 0, 0;
    for i := 0 to 32
      invariant best == -1 ==> forall j | 0 <= j < i :: !Eligible(rows[j])
      invariant best != -1 ==> 0 <= best < i && rows[best] == (time, id) && IsOldest(rows[..i], best)
    {
      if frame[2 * i] >= 0 {
        if best == -1 || frame[2 * i] < time || (frame[2 * i] == time && frame[2 * i + 1] < id) {
          best, time, id := i, frame[2 * i], frame[2 * i + 1];
        }
      }
    }
    assert rows[..32] == rows;
  }

  /** Marks every row of a frame ineligible; the ids stay. */
  method ClearTimes(frame: array<int>)
    requires frame.Length == SLOTS
    modifies frame
    ensures forall i | 0 <= i < 32 :: frame[2 * i] == -1
    ensures forall i | 0 <= i < 32 :: frame[2 * i + 1] == old(frame[2 * i + 1])
  {
    for i := 0 to 32
      invariant forall j | 0 <= j < i :: frame[2 * j] == -1
      invariant forall j | 0 <= j < 32 :: frame[2 * j + 1] == old(frame[2 * j + 1])
    {
      frame[2 * i] := -1;
    }
  }

  /** One chunk of at most 32 records through a frame. */
  method OldestInChunk(rows: seq<Record>, frame: array<int>) returns (best: int)
    requires |rows| <= 32 && frame.Length == SLOTS
    modifies frame
    ensures if best < 0 then NoneEligible(rows) else IsOldest(rows, best)
  {
    ClearTimes(frame);
    for i := 0 to |rows|
      invariant forall j | 0 <= j < i :: (frame[2 * j], frame[2 * j + 1]) == rows[j]
      invariant forall j | i <= j < 32 :: frame[2 * j] == -1
    {
      frame[2 * i], frame[2 * i + 1] := rows[i].0, rows[i].1;
    }
    best := OldestInFrame(frame);
    assert forall j | 0 <= j < |rows| :: Rows(frame[..])[j] == rows[j];
    assert forall j | |rows| <= j < 32 :: !Eligible(Rows(frame[..])[j]);
  }

  /** The older of two eligible records, the first if they are equal, through a frame. */
  method OlderOfTwo(first: Record, second: Record, frame: array<int>) returns (keepsFirst: bool)
    requires Eligible(first) && Eligible(second) && frame.Length == SLOTS
    modifies frame
    ensures keepsFirst == !Older(second, first)
  {
    ClearTimes(frame);
    frame[0], frame[1] := first.0, first.1;
    frame[2], frame[3] := second.0, second.1;
    var best := OldestInFrame(frame);
    ghost var rows := Rows(frame[..]);
    assert rows[0] == first && rows[1] == second;
    assert forall j | 2 <= j < 32 :: !Eligible(rows[j]);
    return best == 0;
  }

  /** The winner of all chunks is the oldest eligible record of the whole table. */
  method OldestRecord(records: seq<Record>) returns (winner: Option<nat>)
    ensures winner.None? ==> NoneEligible(records)
    ensures winner.Some? ==> IsOldest(records, winner.value)
  {
    winner := None;
    var start := 0;
    while start < |records|
      invariant 0 <= start <= |records|
      invariant winner.None? ==> NoneEligible(records[..start])
      invariant winner.Some? ==> IsOldest(records[..start], winner.value)
    {
      var end := if start + 32 < |records| then start + 32 else |records|;
      var rows := records[start..end];
      var frame := new int[SLOTS](_ => 0);
      var selected := OldestInChunk(rows, frame);
      ghost var seen := records[..end];
      assert forall j | start <= j < end :: seen[j] == rows[j - start];
      assert forall j | 0 <= j < start :: seen[j] == records[..start][j];
      if selected >= 0 {
        var candidate := start + selected;
        match winner {
          case None =>
            winner := Some(candidate);
          case Some(previous) =>
            var keeps := OlderOfTwo(records[previous], records[candidate], frame);
            winner := Some(if keeps then previous else candidate);
        }
      }
      start := end;
    }
    assert records[..start] == records;
  }

  /** There is only one oldest record, so the choice does not depend on the chunks. */
  lemma OldestIsUnique(records: seq<Record>, i: nat, j: nat)
    requires IsOldest(records, i) && IsOldest(records, j)
    ensures i == j
  {
  }

  // ----- the newest rows first

  function NewerIn(ids: seq<nat>): (precedes: (nat, nat) -> bool) {
    (a: nat, b: nat) => Newer(ids, a, b)
  }

  /** Row `a` comes before row `b`: a larger id, or the earlier place for equal ids. */
  predicate Newer(ids: seq<nat>, a: nat, b: nat) {
    a < |ids| && b < |ids| && (ids[a] > ids[b] || (ids[a] == ids[b] && a < b))
  }

  /** Rows still to be placed: not consumed, and with an id to tell them by. */
  predicate IsLeft(ids: seq<nat>, consumed: seq<bool>, k: nat) {
    k < |ids| && k < |consumed| && !consumed[k] && ids[k] > 0
  }

  /** The newest row left among the first `n`, or that there is none. */
  predicate IsNewest(ids: seq<nat>, consumed: seq<bool>, n: nat, best: int, key: int) {
    if best < 0 then best == -1 && forall k: nat | k < n :: !IsLeft(ids, consumed, k)
    else
      && best < n && IsLeft(ids, consumed, best) && key == ids[best]
      && forall k: nat | k < n && k != best && IsLeft(ids, consumed, k) :: Newer(ids, best, k)
  }

  /**
    The kernel's fold over the next rows, at most thirty: the best row so far, and pairs of
    place and id in which a consumed row has the id zero.
   */
  method NewestFold(frame: array<int>, ghost ids: seq<nat>, ghost consumed: seq<bool>, ghost start: nat)
    returns (best: int, key: int)
    requires frame.Length == SLOTS && 0 <= frame[1] <= 30 && |consumed| == |ids| && start + frame[1] <= |ids|
    requires IsNewest(ids, consumed, start, frame[2], frame[3])
    requires forall i | 0 <= i < frame[1] ::
               && frame[4 + 2 * i] == start + i
               && frame[5 + 2 * i] == if consumed[start + i] then 0 else ids[start + i]
    ensures IsNewest(ids, consumed, start + frame[1], best, key)
  {
    best, key := frame[2], frame[3];
    for i := 0 to frame[1]
      invariant IsNewest(ids, consumed, start + i, best, key)
    {
      if frame[5 + 2 * i] > 0 && (best < 0 || frame[5 + 2 * i] > key) {
        best, key := frame[4 + 2 * i], frame[5 + 2 * i];
      }
    }
  }

  /** One selection over the whole table, thirty rows to a frame. */
  method Newest(ids: seq<nat>, consumed: seq<bool>) returns (best: int, key: int)
    requires |consumed| == |ids|
    ensures IsNewest(ids, consumed, |ids|, best, key)
  {
    best, key := -1, 0;
    var start := 0;
    while start < |ids|
      invariant 0 <= start <= |ids|
      invariant IsNewest(ids, consumed, start, best, key)
    {
      var count := if start + 30 < |ids| then 30 else |ids| - start;
      var frame := new int[SLOTS](_ => 0);
      frame[0], frame[1], frame[2], frame[3] := 12, count, best, key;
      for i := 0 to count
        invariant frame[1] == count && frame[2] == best && frame[3] == key
        invariant forall j | 0 <= j < i ::
                    && frame[4 + 2 * j] == start + j
                    && frame[5 + 2 * j] == if consumed[start + j] then 0 else ids[start + j]
      {
        frame[4 + 2 * i] := start + i;
        frame[5 + 2 * i] := if consumed[start + i] then 0 else ids[start + i];
      }
      best, key := NewestFold(frame, ids, consumed, start);
      start := start + count;
    }
  }

  function Entries(list: seq<nat>): (entries: set<nat>) {
    set n | n in list
  }

  function Below(n: nat): (numbers: set<nat>)
    ensures forall k: nat :: k in numbers <==> k < n
    ensures |numbers| == n
  {
    if n == 0 then {} else Below(n - 1) + {n - 1}
  }

  lemma {:induction false} DistinctEntries(list: seq<nat>)
    requires forall i, j | 0 <= i < j < |list| :: list[i] != list[j]
    ensures |Entries(list)| == |list|
  {
    if list != [] {
      var front, last := list[..|list| - 1], list[|list| - 1];
      DistinctEntries(front);
      assert Entries(list) == Entries(front) + {last};
    }
  }

  /** As many different places as there are rows are all the places; fewer leave one out. */
  lemma AllPlaces(list: seq<nat>, n: nat)
    requires forall i, j | 0 <= i < j < |list| :: list[i] != list[j]
    requires forall k | k in list :: k < n
    ensures |list| <= n
    ensures |list| == n <==> forall k: nat :: k < n ==> k in list
  {
    DistinctEntries(list);
    SubsetSize(Entries(list), Below(n));
    if forall k: nat :: k < n ==> k in list {
      SubsetSize(Below(n), Entries(list));
    }
    if |list| == n {
      assert Entries(list) == Below(n);
      forall k: nat | k < n
        ensures k in list
      {
        assert k in Entries(list);
      }
    }
  }

  /** Places all rows, newest first; unavailable when some row has no id to be told by. */
  method NewestFirst(ids: seq<nat>, capacity: nat) returns (r: Result<seq<nat>, Error>)
    ensures r == Err(Capacity) <==> |ids| > capacity
    ensures r.Ok? <==> |ids| <= capacity && forall k | 0 <= k < |ids| :: ids[k] > 0
    ensures r.Ok? ==>
              && InOrder(r.value, NewerIn(ids))
              && forall n: nat :: n in r.value <==> n < |ids|
  {
    if |ids| > capacity {
      return Err(Capacity);
    }
    var consumed := seq(|ids|, _ => false);
    var list: seq<nat> := [];
    while |list| < |ids|
      invariant |consumed| == |ids|
      invariant forall n: nat :: n in list <==> n < |ids| && consumed[n]
      invariant forall i, j | 0 <= i < j < |list| :: Newer(ids, list[i], list[j])
      invariant forall i, k: nat | 0 <= i < |list| && IsLeft(ids, consumed, k) :: Newer(ids, list[i], k)
      invariant forall n | 0 <= n < |ids| && consumed[n] :: ids[n] > 0
      decreases |ids| - |list|
    {
      var best, _ := Newest(ids, consumed);
      if best < 0 {
        AllPlaces(list, |ids|);
        ghost var k: nat :| k < |ids| && k !in list;
        assert !IsLeft(ids, consumed, k);
        return Err(Unavailable);
      }
      ghost var before := consumed;
      consumed := consumed[best := true];
      assert forall k: nat | IsLeft(ids, consumed, k) :: IsLeft(ids, before, k) && k != best;
      list := list + [best];
    }
    AllPlaces(list, |ids|);
    return Ok(list);
  }

  // ----- the market listings

  datatype Status = Active | Sold | Cancelled

  datatype Row = Row(created: nat, id: nat, status: Status)

  /** The wanted status as the kernel numbers it; an unknown name is 3. */
  function WantedTag(wanted: Option<string>): (tag: int) {
    match wanted
    case None => -1
    case Some(name) =>
      if name == "ACTIVE" then 0 else if name == "SOLD" then 1 else if name == "CANCELLED" then 2 else 3
  }

  function StatusName(status: Status): (name: string) {
    match status
    case Active => "ACTIVE"
    case Sold => "SOLD"
    case Cancelled => "CANCELLED"
  }

  function StatusTag(status: Status): (tag: int) {
    match status
    case Active => 0
    case Sold => 1
    case Cancelled => 2
  }

  /** The kernel's filter: whether to include a row, or a refusal of the query. */
  function Filter(wanted: int, status: int): (r: Result<bool, Error>) {
    if wanted < -1 || wanted > 2 || status < 0 || status > 2 then Err(InvalidInput)
    else Ok(wanted == -1 || wanted == status)
  }

  /** What the plain query keeps: every row, or the rows whose status has the wanted name. */
  predicate Matches(row: Row, wanted: Option<string>) {
    wanted.None? || StatusName(row.status) == wanted.value
  }

  lemma FilterIsMatch(row: Row, wanted: Option<string>)
    requires WantedTag(wanted) < 3
    ensures Filter(WantedTag(wanted), StatusTag(row.status)) == Ok(Matches(row, wanted))
  {
  }

  /** The key of the plain sort: latest first, then the smaller id. */
  predicate KeyBefore(a: Row, b: Row) {
    a.created > b.created || (a.created == b.created && a.id < b.id)
  }

  predicate Precedes(rows: seq<Row>, a: nat, b: nat) {
    && a < |rows| && b < |rows|
    && (KeyBefore(rows[a], rows[b]) || (!KeyBefore(rows[b], rows[a]) && a < b))
  }

  function PrecedesIn(rows: seq<Row>): (precedes: (nat, nat) -> bool) {
    (a: nat, b: nat) => Precedes(rows, a, b)
  }

  function Wanted(rows: seq<Row>, wanted: Option<string>): (marked: nat -> bool) {
    (n: nat) => n < |rows| && Matches(rows[n], wanted)
  }

  /** A candidate as the kernel passes it around: place, time and id; place -1 for none. */
  type Candidate = (int, int, int)

  /** The first eligible row, in order, among those from `start` up to `end`. */
  predicate IsFirst(rows: seq<Row>, eligible: seq<bool>, start: nat, end: nat, c: Candidate)
    requires |eligible| == |rows|
  {
    if c.0 < 0 then c.0 == -1 && forall k | start <= k < end && k < |rows| :: !eligible[k]
    else
      && start <= c.0 < end && c.0 < |rows| && eligible[c.0]
      && c.1 == rows[c.0].created && c.2 == rows[c.0].id
      && forall k | start <= k < end && k < |rows| && k != c.0 && eligible[k] :: Precedes(rows, c.0, k)
  }

  /** The kernel's choice among the triples of one frame, by place within the chunk. */
  method SelectListing(frame: array<int>, ghost rows: seq<Row>, ghost eligible: seq<bool>, ghost start: nat)
    returns (best: Candidate)
    requires frame.Length == SLOTS && 0 <= frame[1] <= 20 && |eligible| == |rows| && start + frame[1] <= |rows|
    requires forall i | 0 <= i < frame[1] ::
               && frame[2 + 3 * i] == rows[start + i].created
               && frame[3 + 3 * i] == rows[start + i].id
               && frame[4 + 3 * i] == if eligible[start + i] then 1 else 0
    ensures best.0 < 0 || 0 <= best.0 < frame[1]
    ensures IsFirst(rows, eligible, start, start + frame[1],
                    if best.0 < 0 then best else (start + best.0, best.1, best.2))
  {
    best := (-1, 0, 0);
    for i := 0 to frame[1]
      invariant best.0 == -1 || 0 <= best.0 < i
      invariant IsFirst(rows, eligible, start, start + i, if best.0 < 0 then best else (start + best.0, best.1, best.2))
    {
      var created, id := frame[2 + 3 * i], frame[3 + 3 * i];
      if frame[4 + 3 * i] == 1 && (best.0 < 0 || created > best.1 || (created == best.1 && id < best.2)) {
        best := (i, created, id);
      }
    }
  }

  /** The kernel's merge of the best so far with a chunk's candidate. */
  function MergeListing(current: Candidate, candidate: Candidate): (merged: Candidate) {
    if candidate.0 >= 0 && (current.0 < 0 || candidate.1 > current.1
                            || (candidate.1 == current.1 && candidate.2 < current.2))
    then candidate else current
  }

  lemma MergeIsFirst(
    rows: seq<Row>, eligible: seq<bool>, middle: nat, end: nat, current: Candidate, candidate: Candidate)
    requires |eligible| == |rows| && middle <= end
    requires IsFirst(rows, eligible, 0, middle, current)
    requires IsFirst(rows, eligible, middle, end, candidate)
    ensures IsFirst(rows, eligible, 0, end, MergeListing(current, candidate))
  {
  }

  /** At most twenty rows in a frame, as triples of creation, id and eligibility. */
  method FillFrame(rows: seq<Row>, eligible: seq<bool>, start: nat, count: nat) returns (frame: array<int>)
    requires |eligible| == |rows| && start + count <= |rows| && count <= 20
    ensures fresh(frame) && frame.Length == SLOTS && frame[1] == count
    ensures forall i | 0 <= i < count ::
              && frame[2 + 3 * i] == rows[start + i].created
              && frame[3 + 3 * i] == rows[start + i].id
              && frame[4 + 3 * i] == if eligible[start + i] then 1 else 0
  {
    frame := new int[SLOTS](_ => 0);
    frame[0], frame[1] := 1, count;
    for i := 0 to count
      invariant frame[1] == count
      invariant forall j | 0 <= j < i ::
                  && frame[2 + 3 * j] == rows[start + j].created
                  && frame[3 + 3 * j] == rows[start + j].id
                  && frame[4 + 3 * j] == if eligible[start + j] then 1 else 0
    {
      frame[2 + 3 * i] := rows[start + i].created;
      frame[3 + 3 * i] := rows[start + i].id;
      frame[4 + 3 * i] := if eligible[start + i] then 1 else 0;
    }
  }

  /** One selection over the whole book, twenty rows to a frame. */
  method FirstListing(rows: seq<Row>, eligible: seq<bool>) returns (best: Candidate)
    requires |eligible| == |rows|
    ensures IsFirst(rows, eligible, 0, |rows|, best)
  {
    best := (-1, 0, 0);
    var start := 0;
    while start < |rows|
      invariant 0 <= start <= |rows|
      invariant IsFirst(rows, eligible, 0, start, best)
    {
      var count := if start + 20 < |rows| then 20 else |rows| - start;
      var frame := FillFrame(rows, eligible, start, count);
      var chosen := SelectListing(frame, rows, eligible, start);
      var candidate := if chosen.0 < 0 then (-1, chosen.1, chosen.2) else (start + chosen.0, chosen.1, chosen.2);
      MergeIsFirst(rows, eligible, start, start + count, best, candidate);
      best := MergeListing(best, candidate);
      start := start + count;
    }
  }

  function CountTrue(flags: seq<bool>): (n: nat) {
    if flags == [] then 0 else (if flags[0] then 1 else 0) + CountTrue(flags[1..])
  }

  lemma {:induction false} OneLess(flags: seq<bool>, i: nat)
    requires i < |flags| && flags[i]
    ensures CountTrue(flags[i := false]) == CountTrue(flags) - 1
  {
    if i == 0 {
      assert flags[0 := false][1..] == flags[1..];
    } else {
      OneLess(flags[1..], i - 1);
      assert flags[i := false][1..] == flags[1..][i - 1 := false];
    }
  }

  /** The places of the wanted rows, filtered first and then selected one by one until none is eligible. */
  method ListingView(rows: seq<Row>, wanted: Option<string>) returns (r: Result<seq<nat>, Error>)
    ensures r.Err? ==> r.error == InvalidInput
    ensures r.Err? <==> wanted.Some? && wanted.value !in {"ACTIVE", "SOLD", "CANCELLED"}
    ensures r.Ok? ==>
              && InOrder(r.value, PrecedesIn(rows))
              && forall n: nat :: n in r.value <==> n < |rows| && Matches(rows[n], wanted)
  {
    var tag := WantedTag(wanted);
    var check := Filter(tag, 0);
    if check.Err? {
      return Err(check.error);
    }
    var eligible := seq(|rows|, _ => false);
    for i := 0 to |rows|
      invariant |eligible| == |rows|
      invariant forall j | 0 <= j < i :: eligible[j] == Matches(rows[j], wanted)
    {
      FilterIsMatch(rows[i], wanted);
      eligible := eligible[i := Filter(tag, StatusTag(rows[i].status)) == Ok(true)];
    }
    ghost var matching := eligible;
    var list: seq<nat> := [];
    while true
      invariant |eligible| == |rows| == |matching|
      invariant forall n: nat :: n in list <==> n < |rows| && matching[n] && !eligible[n]
      invariant forall n | 0 <= n < |rows| :: eligible[n] ==> matching[n]
      invariant forall i, j | 0 <= i < j < |list| :: Precedes(rows, list[i], list[j])
      invariant forall i, k | 0 <= i < |list| && 0 <= k < |rows| && eligible[k] :: Precedes(rows, list[i], k)
      decreases CountTrue(eligible)
    {
      var best := FirstListing(rows, eligible);
      if best.0 < 0 {
        break;
      }
      OneLess(eligible, best.0);
      eligible := eligible[best.0 := false];
      list := list + [best.0];
    }
    return Ok(list);
  }

  /** What a plain sort by the key leaves: every place once, no later key before an earlier one. */
  ghost predicate IsSorted(rows: seq<Row>, sorted: seq<nat>) {
    && (forall n: nat :: n in sorted <==> n < |rows|)
    && (forall i, j | 0 <= i < j < |sorted| :: sorted[i] != sorted[j])
    && (forall i, j | 0 <= i < j < |sorted| && sorted[i] < |rows| && sorted[j] < |rows| ::
          !KeyBefore(rows[sorted[j]], rows[sorted[i]]))
  }

  ghost predicate DistinctIds(rows: seq<Row>) {
    forall i, j | 0 <= i < j < |rows| :: rows[i].id != rows[j].id
  }

  /** The view is the list that sorting the whole book and then filtering it gives. */
  lemma {:induction false} ViewIsSortThenFilter(
    rows: seq<Row>, wanted: Option<string>, view: seq<nat>, sorted: seq<nat>)
    requires InOrder(view, PrecedesIn(rows))
    requires forall n: nat :: n in view <==> n < |rows| && Matches(rows[n], wanted)
    requires DistinctIds(rows) && IsSorted(rows, sorted)
    ensures view == Keep(sorted, Wanted(rows, wanted))
  {
    var precedes := PrecedesIn(rows);
    var marked := Wanted(rows, wanted);
    forall i, j | 0 <= i < j < |sorted|
      ensures precedes(sorted[i], sorted[j])
    {
      assert sorted[i] in sorted && sorted[j] in sorted;
      assert rows[sorted[i]].id != rows[sorted[j]].id;
    }
    KeepInOrder(sorted, marked, precedes);
    forall n: nat
      ensures n in view <==> n in Keep(sorted, marked)
    {
      KeepEntries(sorted, marked, n);
    }
    OrderIsUnique(view, Keep(sorted, marked), precedes);
  }
}
