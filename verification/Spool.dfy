/** The bridge's durable queue of capture frames that the core has not acknowledged. */
module Spool {
  import opened Bytes
  import opened Delivery

  /** A row of pending_captures. */
  datatype Pending = Pending(record: nat, identity: Identity, source: Source, crc: u32, frame: seq<byte>)

  /** A row of committed_tombstones, under its record_id. */
  datatype Marker = Marker(identity: Identity, crc: u32)

  /** The pending rows are in record_id order; next is larger than every id ever given out. */
  datatype Rows = Rows(pending: seq<Pending>, markers: map<nat, Marker>, next: nat)

  datatype Disposition = Deleted | AlreadyCommitted

  datatype Refusal = InvalidFrame | IdentityConflict

  datatype StoreOutcome = Stored(rows: Rows, row: Pending) | StoreRefused(reason: Refusal)
  datatype MarkOutcome = MarkedAs(rows: Rows, disposition: Disposition) | MarkRefused

  function FindIdentity(pending: seq<Pending>, identity: Identity): (r: Option<Pending>)
    ensures r.Some? ==> r.value in pending && r.value.identity == identity
    ensures r.None? ==> forall p :: p in pending ==> p.identity != identity
  {
    if pending == [] then None
    else if pending[0].identity == identity then Some(pending[0])
    else FindIdentity(pending[1..], identity)
  }

  function FindRecord(pending: seq<Pending>, record: nat): (r: Option<Pending>)
    ensures r.Some? ==> r.value in pending && r.value.record == record
    ensures r.None? ==> forall p :: p in pending ==> p.record != record
  {
    if pending == [] then None
    else if pending[0].record == record then Some(pending[0])
    else FindRecord(pending[1..], record)
  }

  function Delete(pending: seq<Pending>, record: nat): seq<Pending> {
    if pending == [] then []
    else (if pending[0].record == record then [] else [pending[0]]) + Delete(pending[1..], record)
  }

  /** Only a device's newest markers survive: a marker stays when fewer than limit of the
      same device have a larger record_id. */
  function PruneMarkers(markers: map<nat, Marker>, device: Id16, limit: nat): map<nat, Marker> {
    map r | r in markers &&
      (markers[r].identity.device == device ==> |NewerOf(markers, device, r)| < limit) :: markers[r]
  }

  function NewerOf(markers: map<nat, Marker>, device: Id16, record: nat): set<nat> {
    set q | q in markers && q > record && markers[q].identity.device == device
  }

  /** store_capture. */
  function Store(codec: Codec, s: Rows, frame: seq<byte>, source: Source): StoreOutcome {
    match codec.identity(frame)
    case None => StoreRefused(InvalidFrame)
    case Some(identity) =>
      if !SourceCovers(source, frame) then StoreRefused(InvalidFrame)
      else
        match FindIdentity(s.pending, identity)
        case Some(row) =>
          if row.frame != frame || row.crc != codec.crc(frame) then StoreRefused(IdentityConflict)
          else Stored(s, row)
        case None =>
          var row := Pending(s.next, identity, source, codec.crc(frame), frame);
          Stored(s.(pending := s.pending + [row], next := s.next + 1), row)
  }

  /** mark_committed. The marker's identity must be new: it is a unique column. */
  function Mark(s: Rows, receipt: Receipt, limit: nat): MarkOutcome {
    var marker := Marker(receipt.identity, receipt.crc);
    match FindRecord(s.pending, receipt.record)
    case Some(row) =>
      if row.identity != receipt.identity || row.crc != receipt.crc then MarkRefused
      else if receipt.record in s.markers then MarkRefused
      else if exists r :: r in s.markers && s.markers[r].identity == receipt.identity then MarkRefused
      else
        MarkedAs(
          s.(pending := Delete(s.pending, receipt.record),
             markers := PruneMarkers(s.markers[receipt.record := marker], receipt.identity.device, limit)),
          Deleted)
    case None =>
      if receipt.record !in s.markers || s.markers[receipt.record] != marker then MarkRefused
      else MarkedAs(s, AlreadyCommitted)
  }

  // ---------------------------------------------------------------- what every operation keeps

  /** Records increase, and no identity is pending twice. */
  ghost predicate Ordered(pending: seq<Pending>) {
    forall i, j :: 0 <= i < j < |pending| ==>
      pending[i].record < pending[j].record && pending[i].identity != pending[j].identity
  }

  predicate RowFits(codec: Codec, p: Pending) {
    codec.identity(p.frame) == Some(p.identity) && p.crc == codec.crc(p.frame) && SourceCovers(p.source, p.frame)
  }

  ghost predicate WellFormed(codec: Codec, s: Rows) {
    Ordered(s.pending) &&
    (forall p :: p in s.pending ==> p.record < s.next && RowFits(codec, p)) &&
    (forall r :: r in s.markers ==> r < s.next) &&
    (forall p, r :: p in s.pending && r in s.markers ==> p.record != r && p.identity != s.markers[r].identity)
  }

  /** The device never sends an identity again once the spool has been told it is committed. */
  ghost predicate NotCommitted(s: Rows, identity: Identity) {
    forall r :: r in s.markers ==> s.markers[r].identity != identity
  }

  lemma StoreKeeps(codec: Codec, s: Rows, frame: seq<byte>, source: Source)
    requires WellFormed(codec, s)
    requires codec.identity(frame).Some? ==> NotCommitted(s, codec.identity(frame).value)
    ensures var r := Store(codec, s, frame, source);
            r.Stored? ==>
              WellFormed(codec, r.rows) && s.pending <= r.rows.pending && r.row in r.rows.pending &&
              r.row.frame == frame && codec.identity(frame) == Some(r.row.identity) &&
              (r.rows.pending == s.pending || r.rows.pending == s.pending + [r.row])
  {
    var r := Store(codec, s, frame, source);
    if r.Stored? && FindIdentity(s.pending, codec.identity(frame).value).None? {
      OrderedAppend(s.pending, r.row);
    }
  }

  lemma OrderedAppend(pending: seq<Pending>, row: Pending)
    requires Ordered(pending)
    requires forall p :: p in pending ==> p.record < row.record && p.identity != row.identity
    ensures Ordered(pending + [row])
  {
    forall i | 0 <= i < |pending| ensures pending[i] in pending {
    }
  }

  lemma {:induction false} DeleteMembers(pending: seq<Pending>, record: nat, p: Pending)
    ensures p in Delete(pending, record) <==> p in pending && p.record != record
  {
    if pending != [] {
      DeleteMembers(pending[1..], record, p);
    }
  }

  /** Deleting one row of an ordered table takes out just that row. */
  lemma {:induction false} DeleteAt(pending: seq<Pending>, k: nat)
    requires k < |pending|
    requires forall i, j :: 0 <= i < j < |pending| ==> pending[i].record < pending[j].record
    ensures Delete(pending, pending[k].record) == pending[..k] + pending[k + 1..]
  {
    if k == 0 {
      DeleteAbsent(pending[1..], pending[0].record);
    } else {
      DeleteAt(pending[1..], k - 1);
      assert pending[1..][..k - 1] == pending[1..k];
      assert pending[1..][k..] == pending[k + 1..];
      assert [pending[0]] + pending[1..k] == pending[..k];
    }
  }

  lemma {:induction false} DeleteAbsent(pending: seq<Pending>, record: nat)
    requires forall p :: p in pending ==> p.record != record
    ensures Delete(pending, record) == pending
  {
    if pending != [] {
      DeleteAbsent(pending[1..], record);
    }
  }

  /** A row leaves the spool only on a receipt that names its record, identity and checksum;
      every other row stays where it was. */
  lemma MarkRemoves(codec: Codec, s: Rows, receipt: Receipt, limit: nat) returns (k: nat)
    requires WellFormed(codec, s)
    requires var r := Mark(s, receipt, limit); r.MarkedAs? && r.disposition.Deleted?
    ensures k < |s.pending|
    ensures s.pending[k].record == receipt.record && s.pending[k].identity == receipt.identity
    ensures codec.crc(s.pending[k].frame) == receipt.crc
    ensures Mark(s, receipt, limit).rows.pending == s.pending[..k] + s.pending[k + 1..]
  {
    var row := FindRecord(s.pending, receipt.record).value;
    k :| 0 <= k < |s.pending| && s.pending[k] == row;
    DeleteAt(s.pending, k);
  }

  /** The new marker is the receipt's, and pruning only drops markers. */
  lemma MarkMarkers(s: Rows, receipt: Receipt, limit: nat, r: nat)
    requires Mark(s, receipt, limit).MarkedAs? && r in Mark(s, receipt, limit).rows.markers
    ensures var m := Mark(s, receipt, limit).rows.markers;
            (r in s.markers && m[r] == s.markers[r]) ||
            (r == receipt.record && m[r].identity == receipt.identity && FindRecord(s.pending, r).Some?)
  {
  }

  lemma WithoutOneOrdered(pending: seq<Pending>, k: nat)
    requires Ordered(pending) && k < |pending|
    ensures Ordered(pending[..k] + pending[k + 1..])
  {
    var rest := pending[..k] + pending[k + 1..];
    forall i, j | 0 <= i < j < |rest|
      ensures rest[i].record < rest[j].record && rest[i].identity != rest[j].identity
    {
      var a, b := if i < k then i else i + 1, if j < k then j else j + 1;
      assert rest[i] == pending[a] && rest[j] == pending[b] && a < b;
    }
  }

  lemma OthersDiffer(pending: seq<Pending>, k: nat, p: Pending)
    requires Ordered(pending) && k < |pending| && p in pending
    ensures p != pending[k] ==> p.record != pending[k].record && p.identity != pending[k].identity
  {
    var j :| 0 <= j < |pending| && pending[j] == p;
    if j < k {
      assert pending[j].record < pending[k].record;
    } else if k < j {
      assert pending[k].record < pending[j].record;
    }
  }

  lemma RestMember(pending: seq<Pending>, k: nat, p: Pending)
    requires Ordered(pending) && k < |pending|
    ensures p in pending[..k] + pending[k + 1..] <==> p in pending && p != pending[k]
  {
    var rest := pending[..k] + pending[k + 1..];
    assert pending == pending[..k] + [pending[k]] + pending[k + 1..];
    if p in rest {
      var j :| 0 <= j < |rest| && rest[j] == p;
      var i := if j < k then j else j + 1;
      assert pending[i] == p;
      if i < k {
        assert pending[i].record < pending[k].record;
      } else {
        assert pending[k].record < pending[i].record;
      }
    }
  }

  lemma WithoutOne(pending: seq<Pending>, k: nat)
    requires Ordered(pending) && k < |pending|
    ensures var rest := pending[..k] + pending[k + 1..];
            Ordered(rest) && forall p :: p in rest <==> p in pending && p != pending[k]
    ensures forall p :: p in pending && p != pending[k] ==>
              p.record != pending[k].record && p.identity != pending[k].identity
  {
    WithoutOneOrdered(pending, k);
    forall p: Pending {
      RestMember(pending, k, p);
    }
    forall p | p in pending && p != pending[k]
      ensures p.record != pending[k].record && p.identity != pending[k].identity
    {
      OthersDiffer(pending, k, p);
    }
  }

  lemma MarkKeeps(codec: Codec, s: Rows, receipt: Receipt, limit: nat)
    requires WellFormed(codec, s) && Mark(s, receipt, limit).MarkedAs?
    ensures WellFormed(codec, Mark(s, receipt, limit).rows)
    ensures Mark(s, receipt, limit).rows.next == s.next
  {
    var after := Mark(s, receipt, limit).rows;
    if Mark(s, receipt, limit).disposition.Deleted? {
      var k := MarkRemoves(codec, s, receipt, limit);
      WithoutOne(s.pending, k);
      assert s.pending[k] in s.pending;
      forall r | r in after.markers
        ensures r < s.next
        ensures forall p :: p in after.pending ==> p.record != r && p.identity != after.markers[r].identity
      {
        MarkMarkers(s, receipt, limit, r);
      }
    }
  }

  /** A pending row named by a correct receipt is accepted. */
  lemma MarkAccepts(codec: Codec, s: Rows, receipt: Receipt, limit: nat, k: nat)
    requires WellFormed(codec, s) && k < |s.pending|
    requires s.pending[k].record == receipt.record && s.pending[k].identity == receipt.identity
    requires s.pending[k].crc == receipt.crc
    ensures var r := Mark(s, receipt, limit);
            r.MarkedAs? && r.disposition == Deleted &&
            r.rows.pending == s.pending[..k] + s.pending[k + 1..]
  {
    var row := FindRecord(s.pending, receipt.record);
    assert s.pending[k] in s.pending;
    var j :| 0 <= j < |s.pending| && s.pending[j] == row.value;
    assert j == k;
    DeleteAt(s.pending, k);
  }

  /** Repeating a receipt is harmless: the newest record's marker is never pruned. */
  lemma MarkTwice(codec: Codec, s: Rows, receipt: Receipt, limit: nat)
    requires WellFormed(codec, s) && limit >= 1
    requires Mark(s, receipt, limit).MarkedAs?
    requires forall r :: r in s.markers ==> r <= receipt.record
    ensures var once := Mark(s, receipt, limit).rows;
            Mark(once, receipt, limit) == MarkedAs(once, AlreadyCommitted)
  {
    MarkKeeps(codec, s, receipt, limit);
    var first := Mark(s, receipt, limit);
    if first.disposition.Deleted? {
      var marked := s.markers[receipt.record := Marker(receipt.identity, receipt.crc)];
      assert NewerOf(marked, receipt.identity.device, receipt.record) == {};
      forall p | p in first.rows.pending ensures p.record != receipt.record {
        DeleteMembers(s.pending, receipt.record, p);
      }
    }
  }

  // ---------------------------------------------------------------- the spool object

  /** What a capture from the device leads to: it is refused as invalid exactly when it has no
      identity or its source range does not cover it, as conflicting exactly when other bytes of this
      identity are pending, the pending row is answered when the bytes agree, and otherwise the frame
      becomes the newest row, with its source. */
  lemma StoreExactly(codec: Codec, s: Rows, frame: seq<byte>, source: Source)
    requires WellFormed(codec, s)
    ensures var r := Store(codec, s, frame, source);
            (r == StoreRefused(InvalidFrame) <==> codec.identity(frame).None? || !SourceCovers(source, frame)) &&
            (r == StoreRefused(IdentityConflict) <==>
              SourceCovers(source, frame) &&
              exists p :: p in s.pending && codec.identity(frame) == Some(p.identity) && p.frame != frame) &&
            (r.Stored? ==>
              codec.identity(frame) == Some(r.row.identity) && r.row.frame == frame && r.rows.markers == s.markers &&
              if exists p :: p in s.pending && p.identity == r.row.identity then r.rows == s && r.row in s.pending
              else r.rows.pending == s.pending + [r.row] && r.row.source == source && r.row.record == s.next)
  {
    match codec.identity(frame)
    case None =>
    case Some(identity) =>
      match FindIdentity(s.pending, identity)
      case None =>
      case Some(row) =>
        forall p | p in s.pending && p.identity == identity ensures p == row {
          PendingOnce(s.pending, p, row);
        }
  }

  lemma PendingOnce(pending: seq<Pending>, p: Pending, q: Pending)
    requires Ordered(pending) && p in pending && q in pending && p.identity == q.identity
    ensures p == q
  {
    var i :| 0 <= i < |pending| && pending[i] == p;
    var j :| 0 <= j < |pending| && pending[j] == q;
    assert !(i < j) && !(j < i);
  }

  function MarkersOf(markers: map<nat, Marker>, device: Id16): set<nat> {
    set r | r in markers && markers[r].identity.device == device
  }

  lemma SubsetSize(a: set<nat>, b: set<nat>)
    requires a <= b
    ensures |a| <= |b|
  {
    assert b == a + (b - a);
  }

  lemma {:induction false} Least(a: set<nat>) returns (m: nat)
    requires a != {}
    ensures m in a && forall x :: x in a ==> m <= x
    decreases |a|
  {
    var x :| x in a;
    var b := a - {x};
    assert forall y :: y in a <==> y == x || y in b;
    if b == {} {
      m := x;
    } else {
      var n := Least(b);
      m := if x < n then x else n;
    }
  }

  /** Pruning touches one device's markers only. Of these it keeps at most limit, the newest, and
      all of them when they are no more than that. */
  lemma PruneExactly(markers: map<nat, Marker>, device: Id16, limit: nat)
    ensures var kept := PruneMarkers(markers, device, limit);
            (forall r :: r in kept ==> r in markers && kept[r] == markers[r]) &&
            (forall r :: r in markers && markers[r].identity.device != device ==> r in kept) &&
            |MarkersOf(kept, device)| <= limit &&
            (forall q, r :: q in MarkersOf(markers, device) && r in MarkersOf(kept, device) && q > r ==> q in kept) &&
            (|MarkersOf(markers, device)| <= limit ==> kept == markers) &&
            (|MarkersOf(markers, device)| >= limit ==> |MarkersOf(kept, device)| == limit)
  {
    var kept := PruneMarkers(markers, device, limit);
    var all, mine := MarkersOf(markers, device), MarkersOf(kept, device);
    KeptAtMost(markers, device, limit);
    forall q, r | q in all && r in mine && q > r ensures q in kept {
      SubsetSize(NewerOf(markers, device, q), NewerOf(markers, device, r));
    }
    forall r | r in all && r !in kept ensures limit < |all| {
      SubsetSize(NewerOf(markers, device, r) + {r}, all);
    }
    KeptAtLeast(markers, device, limit);
  }

  lemma KeptAtMost(markers: map<nat, Marker>, device: Id16, limit: nat)
    ensures |MarkersOf(PruneMarkers(markers, device, limit), device)| <= limit
  {
    var mine := MarkersOf(PruneMarkers(markers, device, limit), device);
    if mine != {} {
      var m := Least(mine);
      SubsetSize(mine - {m}, NewerOf(markers, device, m));
    }
  }

  /** Everything newer than the newest marker that was removed is kept. */
  lemma KeptAtLeast(markers: map<nat, Marker>, device: Id16, limit: nat)
    ensures var kept := PruneMarkers(markers, device, limit);
            |MarkersOf(markers, device)| >= limit ==> |MarkersOf(kept, device)| >= limit
    ensures var kept := PruneMarkers(markers, device, limit);
            |MarkersOf(markers, device)| <= limit ==> MarkersOf(kept, device) == MarkersOf(markers, device)
  {
    var kept := PruneMarkers(markers, device, limit);
    var all, mine := MarkersOf(markers, device), MarkersOf(kept, device);
    var removed := all - mine;
    if removed == {} {
      assert mine == all;
    } else {
      var r := Greatest(removed);
      forall q | q in NewerOf(markers, device, r) ensures q in mine {
        assert q in all && q !in removed;
      }
      SubsetSize(NewerOf(markers, device, r), mine);
      SubsetSize(NewerOf(markers, device, r) + {r}, all);
    }
  }

  lemma {:induction false} Greatest(a: set<nat>) returns (m: nat)
    requires a != {}
    ensures m in a && forall x :: x in a ==> x <= m
    decreases |a|
  {
    var x :| x in a;
    var b := a - {x};
    assert forall y :: y in a <==> y == x || y in b;
    if b == {} {
      m := x;
    } else {
      var n := Greatest(b);
      m := if x > n then x else n;
    }
  }

  class CaptureSpool {
    const tombstoneLimit: nat
    var pending: seq<Pending>
    var markers: map<nat, Marker>
    var next: nat

    ghost function State(): Rows
      reads this
    {
      Rows(pending, markers, next)
    }

    constructor (limit: nat)
      requires limit >= 1
      ensures State() == Rows([], map[], 1) && tombstoneLimit == limit
    {
      tombstoneLimit := limit;
      pending, markers, next := [], map[], 1;
    }

    method StoreCapture(codec: Codec, frame: seq<byte>, source: Source) returns (outcome: StoreOutcome)
      modifies this
      ensures outcome == Store(codec, old(State()), frame, source)
      ensures State() == if outcome.Stored? then outcome.rows else old(State())
    {
      var identity := codec.identity(frame);
      if identity.None? || !SourceCovers(source, frame) {
        return StoreRefused(InvalidFrame);
      }
      var crc := codec.crc(frame);
      var existing := FindIdentity(pending, identity.value);
      if existing.Some? {
        if existing.value.frame != frame || existing.value.crc != crc {
          return StoreRefused(IdentityConflict);
        }
        return Stored(Rows(pending, markers, next), existing.value);
      }
      var row := Pending(next, identity.value, source, crc, frame);
      pending := pending + [row];
      next := next + 1;
      return Stored(Rows(pending, markers, next), row);
    }

    /** One bounded batch in delivery order. */
    method PendingRecords(limit: nat) returns (batch: seq<Pending>)
      requires 1 <= limit <= 1024
      ensures batch <= pending && |batch| <= limit
      ensures batch == [] <==> pending == []
      ensures |batch| < limit ==> batch == pending
    {
      batch := if |pending| <= limit then pending else pending[..limit];
    }

    method MarkCommitted(receipt: Receipt) returns (outcome: MarkOutcome)
      modifies this
      ensures outcome == Mark(old(State()), receipt, tombstoneLimit)
      ensures State() == if outcome.MarkedAs? then outcome.rows else old(State())
    {
      var marker := Marker(receipt.identity, receipt.crc);
      var row := FindRecord(pending, receipt.record);
      if row.Some? {
        if row.value.identity != receipt.identity || row.value.crc != receipt.crc {
          return MarkRefused;
        }
        if receipt.record in markers ||
           exists r :: r in markers && markers[r].identity == receipt.identity {
          return MarkRefused;
        }
        markers := markers[receipt.record := marker];
        pending := Delete(pending, receipt.record);
        markers := PruneMarkers(markers, receipt.identity.device, tombstoneLimit);
        return MarkedAs(Rows(pending, markers, next), Deleted);
      }
      if receipt.record !in markers || markers[receipt.record] != marker {
        return MarkRefused;
      }
      return MarkedAs(Rows(pending, markers, next), AlreadyCommitted);
    }
  }
}
