// Per-request byte accounting of the share session in
// engine/protocol/src/send.rs: what is added up as blobs start, what is shown
// as progress, and the test that decides whether the payload was delivered.

module ByteAccounting {
  import opened Numbers
  import opened Wrappers

  const U64_MAX: nat := 0xFFFF_FFFF_FFFF_FFFF

  type u64 = n: nat | n <= U64_MAX

  function SaturatingAdd(a: u64, b: u64): u64 {
    Min(a + b, U64_MAX)
  }

  function SaturatingMul(a: u64, b: nat): u64 {
    Min(a * b, U64_MAX)
  }

  // ------------------------------------------------------------- the 95% test

  predicate PayloadComplete(sent: u64, total: u64) {
    total == 0 || SaturatingMul(sent, 100) >= SaturatingMul(total, 95)
  }

  // The largest total for which saturation cannot change the verdict.
  const EXACT_LIMIT: nat := U64_MAX / 95 + 1

  // The saturating test is the exact inequality for every byte count just when
  // the total is at most EXACT_LIMIT (some 194 petabytes).
  lemma PayloadCompleteExact(total: u64)
    ensures (forall sent: u64 :: PayloadComplete(sent, total) <==> 100 * sent >= 95 * total)
       <==> total <= EXACT_LIMIT
  {
    if total <= EXACT_LIMIT {
      forall sent: u64
        ensures PayloadComplete(sent, total) <==> 100 * sent >= 95 * total
      {
      }
    } else {
      // The least byte count whose hundredfold saturates.
      var sent: u64 := U64_MAX / 100 + 1;
      assert PayloadComplete(sent, total) && 100 * sent < 95 * total;
    }
  }

  // -------------------------------------------------------- state of a request

  datatype Update =
    | Started(index: nat, size: u64)
    | Progress(endOffset: u64)
    | Completed
    | Aborted

  datatype TransferState = TransferState(
    total: u64,
    accounted: u64,
    blobSize: u64,
    blobEnd: u64,
    ignoring: bool)

  function Fresh(total: u64, first: Update): TransferState {
    TransferState(total, 0, 0, 0, first.Progress?)
  }

  predicate IsMetadata(entryType: string, u: Update)
    requires u.Started?
  {
    (entryType == "directory" || entryType == "collection") && u.index == 0
  }

  // Folds the blob in flight into the account, unless it is being ignored.
  function Settle(st: TransferState): TransferState {
    if st.ignoring then st
    else st.(accounted := Min(SaturatingAdd(st.accounted, st.blobSize), st.total))
  }

  function OnStarted(st: TransferState, size: u64, metadata: bool): TransferState {
    var settled := Settle(st);
    var accounted := if st.ignoring && !metadata then 0 else settled.accounted;
    TransferState(st.total, accounted, size, 0, metadata)
  }

  function OnProgress(st: TransferState, endOffset: u64): TransferState {
    if st.ignoring then st
    else st.(blobEnd := Max(Min(endOffset, st.blobSize), st.blobEnd))
  }

  function Transferred(st: TransferState): u64 {
    if st.ignoring then st.accounted
    else Min(SaturatingAdd(st.accounted, st.blobEnd), st.total)
  }

  function Apply(entryType: string, st: TransferState, u: Update): TransferState {
    match u
    case Started(_, size) => OnStarted(st, size, IsMetadata(entryType, u))
    case Progress(endOffset) => OnProgress(st, endOffset)
    case Completed => st
    case Aborted => st
  }

  // The state after a whole trace of updates; the first one creates it.
  function Replay(total: u64, entryType: string, trace: seq<Update>): TransferState
    requires trace != []
  {
    var n := |trace| - 1;
    var before := if n == 0 then Fresh(total, trace[0]) else Replay(total, entryType, trace[..n]);
    Apply(entryType, before, trace[n])
  }

  lemma ReplaySnoc(total: u64, entryType: string, trace: seq<Update>, u: Update)
    ensures Replay(total, entryType, trace + [u])
         == Apply(entryType, if trace == [] then Fresh(total, u) else Replay(total, entryType, trace), u)
  {
    assert (trace + [u])[..|trace|] == trace;
  }

  // ----------------------------------------------------- what the trace says

  // Total size of the payload blobs started since the last metadata blob.
  function PayloadRun(entryType: string, trace: seq<Update>): nat {
    if trace == [] then 0 else
    var n := |trace| - 1;
    var u := trace[n];
    if !u.Started? then PayloadRun(entryType, trace[..n])
    else if IsMetadata(entryType, u) then 0
    else u.size + PayloadRun(entryType, trace[..n])
  }

  // The same at the last payload blob: a metadata blob that nothing follows
  // does not clear the account.
  function Counted(entryType: string, trace: seq<Update>): nat {
    if trace == [] then 0 else
    var n := |trace| - 1;
    var u := trace[n];
    if u.Started? && !IsMetadata(entryType, u) then u.size + PayloadRun(entryType, trace[..n])
    else Counted(entryType, trace[..n])
  }

  // Total size of all payload blobs started.
  function PayloadSum(entryType: string, trace: seq<Update>): nat {
    if trace == [] then 0 else
    var n := |trace| - 1;
    var u := trace[n];
    PayloadSum(entryType, trace[..n]) + if u.Started? && !IsMetadata(entryType, u) then u.size else 0
  }

  // The metadata blob is started only before any payload blob.
  predicate MetadataFirst(entryType: string, trace: seq<Update>) {
    forall i, j :: 0 <= i < j < |trace| && trace[i].Started? && trace[j].Started? && IsMetadata(entryType, trace[j])
      ==> IsMetadata(entryType, trace[i])
  }

  // ------------------------------------------------------------------ theorems

  // What the state means in terms of the trace.
  ghost predicate Reflects(entryType: string, trace: seq<Update>, st: TransferState) {
    && st.accounted <= st.total
    && st.blobEnd <= st.blobSize
    && (st.ignoring ==> st.accounted == Min(st.total, Counted(entryType, trace))
                        && PayloadRun(entryType, trace) == 0)
    && (!st.ignoring ==> Settle(st).accounted == Min(st.total, Counted(entryType, trace))
                         && Counted(entryType, trace) == PayloadRun(entryType, trace))
  }

  lemma {:induction false} ReplayReflects(total: u64, entryType: string, trace: seq<Update>)
    requires trace != []
    ensures Replay(total, entryType, trace).total == total
    ensures Reflects(entryType, trace, Replay(total, entryType, trace))
  {
    var n := |trace| - 1;
    if n > 0 {
      ReplayReflects(total, entryType, trace[..n]);
    } else {
      assert trace[..n] == [];
    }
  }

  // Saturating and clamping at every step, the bytes accounted when the
  // request completes are exactly the clamped total of what was counted.
  lemma AccountedAtCompletion(total: u64, entryType: string, trace: seq<Update>)
    requires trace != []
    ensures Settle(Replay(total, entryType, trace)).accounted == Min(total, Counted(entryType, trace))
  {
    ReplayReflects(total, entryType, trace);
  }

  // ------------------------------------------------- when bytes are dropped

  predicate IsPayload(entryType: string, u: Update) {
    u.Started? && !IsMetadata(entryType, u)
  }

  predicate StartsMetadata(entryType: string, u: Update) {
    u.Started? && IsMetadata(entryType, u)
  }

  // Some payload blob is not empty.
  predicate HasBytes(entryType: string, trace: seq<Update>) {
    exists i :: 0 <= i < |trace| && IsPayload(entryType, trace[i]) && trace[i].size > 0
  }

  // Some metadata blob comes after a payload blob that is not empty.
  predicate CutOff(entryType: string, trace: seq<Update>) {
    exists j :: 0 <= j < |trace| && StartsMetadata(entryType, trace[j]) && HasBytes(entryType, trace[..j])
  }

  // And a payload blob comes after that metadata blob.
  predicate Restarts(entryType: string, trace: seq<Update>) {
    exists k :: 0 <= k < |trace| && IsPayload(entryType, trace[k]) && CutOff(entryType, trace[..k])
  }

  lemma PrefixCases(entryType: string, trace: seq<Update>)
    requires trace != []
    ensures var before, u := trace[..|trace| - 1], trace[|trace| - 1];
            && (HasBytes(entryType, trace) <==> HasBytes(entryType, before) || (IsPayload(entryType, u) && u.size > 0))
            && (CutOff(entryType, trace) <==>
                  CutOff(entryType, before) || (StartsMetadata(entryType, u) && HasBytes(entryType, before)))
            && (Restarts(entryType, trace) <==>
                  Restarts(entryType, before) || (IsPayload(entryType, u) && CutOff(entryType, before)))
  {
    hide IsPayload, StartsMetadata;
    var n := |trace| - 1;
    assert forall i :: 0 <= i < n ==> trace[..n][i] == trace[i] && trace[..n][..i] == trace[..i];
  }

  lemma {:induction false} SumIsZero(entryType: string, trace: seq<Update>)
    ensures PayloadSum(entryType, trace) == 0 <==> !HasBytes(entryType, trace)
  {
    if trace != [] {
      SumIsZero(entryType, trace[..|trace| - 1]);
      PrefixCases(entryType, trace);
    }
  }

  lemma {:induction false} RunIsSum(entryType: string, trace: seq<Update>)
    ensures PayloadRun(entryType, trace) <= PayloadSum(entryType, trace)
    ensures PayloadRun(entryType, trace) == PayloadSum(entryType, trace) <==> !CutOff(entryType, trace)
  {
    hide HasBytes, CutOff;
    if trace == [] {
      NothingCut(entryType);
    } else {
      var n := |trace| - 1;
      RunIsSum(entryType, trace[..n]);
      SumIsZero(entryType, trace[..n]);
      PrefixCases(entryType, trace);
      CutOffHasBytes(entryType, trace[..n]);
    }
  }

  lemma NothingCut(entryType: string)
    ensures !CutOff(entryType, [])
  {
  }

  lemma CutOffHasBytes(entryType: string, trace: seq<Update>)
    ensures CutOff(entryType, trace) ==> HasBytes(entryType, trace)
  {
    if CutOff(entryType, trace) {
      var j :| 0 <= j < |trace| && StartsMetadata(entryType, trace[j]) && HasBytes(entryType, trace[..j]);
      var i :| 0 <= i < j && IsPayload(entryType, trace[..j][i]) && trace[..j][i].size > 0;
      assert trace[i] == trace[..j][i];
    }
  }

  // Nothing is left out of the count exactly when no payload blob follows a
  // metadata blob that follows a payload blob with bytes in it.
  lemma {:induction false} CountedIsSumIff(entryType: string, trace: seq<Update>)
    ensures Counted(entryType, trace) <= PayloadSum(entryType, trace)
    ensures Counted(entryType, trace) == PayloadSum(entryType, trace) <==> !Restarts(entryType, trace)
  {
    hide CutOff;
    if trace != [] {
      var n := |trace| - 1;
      CountedIsSumIff(entryType, trace[..n]);
      RunIsSum(entryType, trace[..n]);
      PrefixCases(entryType, trace);
      RestartsCutOff(entryType, trace[..n]);
    }
  }

  lemma RestartsCutOff(entryType: string, trace: seq<Update>)
    ensures Restarts(entryType, trace) ==> CutOff(entryType, trace)
  {
    if Restarts(entryType, trace) {
      var k :| 0 <= k < |trace| && IsPayload(entryType, trace[k]) && CutOff(entryType, trace[..k]);
      var j :| 0 <= j < k && StartsMetadata(entryType, trace[..k][j]) && HasBytes(entryType, trace[..k][..j]);
      assert trace[j] == trace[..k][j] && trace[..j] == trace[..k][..j];
    }
  }

  lemma MetadataFirstNeverCuts(entryType: string, trace: seq<Update>)
    requires MetadataFirst(entryType, trace)
    ensures !CutOff(entryType, trace) && !Restarts(entryType, trace)
  {
    RestartsCutOff(entryType, trace);
  }

  // Sizes of the blobs started, with or without those of index 0.
  function Sizes(trace: seq<Update>, withFirst: bool): nat {
    if trace == [] then 0 else
    var u := trace[|trace| - 1];
    Sizes(trace[..|trace| - 1], withFirst) + if u.Started? && (withFirst || u.index != 0) then u.size else 0
  }

  // In a directory or collection blob 0 is never payload; in any other share
  // every blob is, and nothing restarts.
  lemma {:induction false} PayloadByType(entryType: string, trace: seq<Update>)
    ensures entryType == "directory" || entryType == "collection" ==>
              PayloadSum(entryType, trace) == Sizes(trace, false)
    ensures entryType != "directory" && entryType != "collection" ==>
              PayloadSum(entryType, trace) == Sizes(trace, true) == Counted(entryType, trace)
  {
    if trace != [] {
      PayloadByType(entryType, trace[..|trace| - 1]);
    }
    if entryType != "directory" && entryType != "collection" {
      MetadataFirstNeverCuts(entryType, trace);
      CountedIsSumIff(entryType, trace);
    }
  }

  // The bytes judged at Completed are min(total, sum of the payload blobs) if
  // and only if no bytes were dropped by a restart, or what was counted after
  // it reaches the total anyway.
  lemma AccountedIsSumIff(total: u64, entryType: string, trace: seq<Update>)
    requires trace != []
    ensures Settle(Replay(total, entryType, trace)).accounted == Min(total, PayloadSum(entryType, trace))
       <==> !Restarts(entryType, trace) || Counted(entryType, trace) >= total
  {
    hide Restarts, Settle, Replay;
    AccountedAtCompletion(total, entryType, trace);
    CountedIsSumIff(entryType, trace);
  }

  lemma AccountedWithMetadataFirst(total: u64, entryType: string, trace: seq<Update>)
    requires trace != [] && MetadataFirst(entryType, trace)
    ensures Settle(Replay(total, entryType, trace)).accounted == Min(total, PayloadSum(entryType, trace))
  {
    AccountedIsSumIff(total, entryType, trace);
    MetadataFirstNeverCuts(entryType, trace);
  }

  // Restarting the metadata blob drops what was sent before it.
  lemma MetadataRestartDropsBytes()
    ensures
      var trace := [Started(1, 50), Started(0, 5), Started(2, 50)];
      Settle(Replay(100, "collection", trace)).accounted == 50 && PayloadSum("collection", trace) == 100
  {
    var t1: seq<Update> := [Started(1, 50)];
    var t2: seq<Update> := [Started(1, 50), Started(0, 5)];
    var trace: seq<Update> := [Started(1, 50), Started(0, 5), Started(2, 50)];
    assert t1[..0] == [] && t2[..1] == t1 && trace[..2] == t2;
    assert PayloadSum("collection", t1) == 50 == PayloadSum("collection", t2);
    assert PayloadRun("collection", t2) == 0;
    AccountedAtCompletion(100, "collection", trace);
  }

  lemma ShownBounded(total: u64, entryType: string, trace: seq<Update>)
    requires trace != []
    ensures Transferred(Replay(total, entryType, trace)) <= total
  {
    ReplayReflects(total, entryType, trace);
  }

  // ----------------------------------------------------- what progress means

  // Where the last blob started, or -1.
  function LastStart(trace: seq<Update>): (r: int)
    ensures -1 <= r < |trace| && (r >= 0 ==> trace[r].Started?)
    ensures forall i :: r < i < |trace| ==> !trace[i].Started?
  {
    if trace == [] then -1
    else if trace[|trace| - 1].Started? then |trace| - 1
    else LastStart(trace[..|trace| - 1])
  }

  // The largest end offset reported, none counting for more than the blob.
  function Furthest(updates: seq<Update>, size: u64): (r: u64)
    ensures r <= size
  {
    if updates == [] then 0 else
    var n := |updates| - 1;
    var before := Furthest(updates[..n], size);
    if updates[n].Progress? then Max(Min(updates[n].endOffset, size), before) else before
  }

  // The payload bytes reported so far: the blobs before the one in flight and
  // how far that one has got. A metadata blob in flight adds nothing.
  function Received(entryType: string, trace: seq<Update>): nat {
    var b := LastStart(trace);
    if b < 0 || IsMetadata(entryType, trace[b]) then Counted(entryType, trace)
    else PayloadRun(entryType, trace[..b]) + Furthest(trace[b + 1..], trace[b].size)
  }

  lemma {:induction false} BlobInFlight(entryType: string, trace: seq<Update>)
    ensures var b := LastStart(trace);
            if b < 0 then Counted(entryType, trace) == PayloadRun(entryType, trace) == 0
            else if IsMetadata(entryType, trace[b]) then PayloadRun(entryType, trace) == 0
            else && Counted(entryType, trace) == PayloadRun(entryType, trace)
                 && PayloadRun(entryType, trace) == PayloadRun(entryType, trace[..b]) + trace[b].size
  {
    if trace != [] && !trace[|trace| - 1].Started? {
      var n := |trace| - 1;
      BlobInFlight(entryType, trace[..n]);
      var b := LastStart(trace[..n]);
      assert b >= 0 ==> trace[..n][..b] == trace[..b];
    }
  }

  ghost predicate Follows(entryType: string, trace: seq<Update>, st: TransferState) {
    var b := LastStart(trace);
    if b < 0 then st.accounted == st.blobSize == st.blobEnd == 0
    else
      && st.ignoring == IsMetadata(entryType, trace[b]) && st.blobSize == trace[b].size
      && (!st.ignoring ==> && st.accounted == Min(st.total, PayloadRun(entryType, trace[..b]))
                           && st.blobEnd == Furthest(trace[b + 1..], st.blobSize))
  }

  lemma FollowsStart(entryType: string, trace: seq<Update>, st: TransferState, u: Update)
    requires Follows(entryType, trace, st) && Reflects(entryType, trace, st) && u.Started?
    ensures Follows(entryType, trace + [u], Apply(entryType, st, u))
  {
    hide PayloadRun, Counted, Furthest;
    var longer := trace + [u];
    assert longer[..|trace|] == trace && longer[|trace| + 1..] == [];
    BlobInFlight(entryType, trace);
    assert Furthest([], u.size) == 0 by {
      FurthestNothing(u.size);
    }
  }

  lemma FurthestNothing(size: u64)
    ensures Furthest([], size) == 0
  {
  }

  lemma FurthestSnoc(updates: seq<Update>, u: Update, size: u64)
    ensures Furthest(updates + [u], size) == if u.Progress? then Max(Min(u.endOffset, size), Furthest(updates, size))
                                             else Furthest(updates, size)
  {
    assert (updates + [u])[..|updates|] == updates;
  }

  lemma FollowsStep(entryType: string, trace: seq<Update>, st: TransferState, u: Update)
    requires Follows(entryType, trace, st) && Reflects(entryType, trace, st)
    ensures Follows(entryType, trace + [u], Apply(entryType, st, u))
  {
    hide PayloadRun, Counted, Furthest, Reflects;
    var longer, b := trace + [u], LastStart(trace);
    if u.Started? {
      FollowsStart(entryType, trace, st, u);
    } else {
      assert longer[..|trace|] == trace && LastStart(longer) == b;
      if b >= 0 {
        assert longer[..b] == trace[..b] && longer[b + 1..] == trace[b + 1..] + [u];
        FurthestSnoc(trace[b + 1..], u, st.blobSize);
      }
    }
  }

  lemma {:induction false} ReplayFollows(total: u64, entryType: string, trace: seq<Update>)
    requires trace != []
    ensures Follows(entryType, trace, Replay(total, entryType, trace))
  {
    hide Apply, Follows, Reflects;
    var n := |trace| - 1;
    assert trace == trace[..n] + [trace[n]];
    if n > 0 {
      ReplayFollows(total, entryType, trace[..n]);
      ReplayReflects(total, entryType, trace[..n]);
      FollowsStep(entryType, trace[..n], Replay(total, entryType, trace[..n]), trace[n]);
    } else {
      FreshFollows(total, entryType, trace[0]);
      FollowsStep(entryType, trace[..0], Fresh(total, trace[0]), trace[0]);
    }
  }

  lemma FreshFollows(total: u64, entryType: string, u: Update)
    ensures Follows(entryType, [], Fresh(total, u)) && Reflects(entryType, [], Fresh(total, u))
  {
  }

  // What progress stands for after any trace: the bytes received, up to the total.
  lemma ShownIsReceived(total: u64, entryType: string, trace: seq<Update>)
    requires trace != []
    ensures Transferred(Replay(total, entryType, trace)) == Min(total, Received(entryType, trace))
  {
    hide Replay, PayloadRun, Counted, Furthest;
    ReplayReflects(total, entryType, trace);
    ReplayFollows(total, entryType, trace);
    BlobInFlight(entryType, trace);
  }

  // The bytes of the payload blobs before the one in flight.
  function BlobsDone(entryType: string, trace: seq<Update>): nat {
    var b := LastStart(trace);
    if b < 0 || IsMetadata(entryType, trace[b]) then Counted(entryType, trace)
    else PayloadRun(entryType, trace[..b])
  }

  // What is accounted before anything is settled: whole blobs only.
  lemma AccountedIsBlobsDone(total: u64, entryType: string, trace: seq<Update>)
    requires trace != []
    ensures Replay(total, entryType, trace).accounted == Min(total, BlobsDone(entryType, trace))
  {
    hide Replay, PayloadRun, Counted, Furthest;
    ReplayReflects(total, entryType, trace);
    ReplayFollows(total, entryType, trace);
    BlobInFlight(entryType, trace);
  }

  // The update at which bytes are dropped: a payload blob right after a metadata
  // blob, with something counted.
  predicate DropsAt(entryType: string, trace: seq<Update>, k: nat) {
    && k < |trace| && IsPayload(entryType, trace[k]) && Counted(entryType, trace[..k]) > 0
    && LastStart(trace[..k]) >= 0 && IsMetadata(entryType, trace[LastStart(trace[..k])])
  }

  lemma ReceivedStep(entryType: string, trace: seq<Update>)
    requires trace != []
    ensures var n := |trace| - 1;
            if DropsAt(entryType, trace, n)
            then Received(entryType, trace) == 0 < Received(entryType, trace[..n])
            else Received(entryType, trace[..n]) <= Received(entryType, trace)
  {
    var n := |trace| - 1;
    var before, b := trace[..n], LastStart(trace[..n]);
    BlobInFlight(entryType, before);
    if trace[n].Started? {
      assert trace[n + 1..] == [];
    } else {
      assert b >= 0 ==> before[..b] == trace[..b];
      assert b >= 0 ==> trace[b + 1..][..n - b - 1] == before[b + 1..];
    }
  }

  lemma {:induction false} ReceivedBetween(entryType: string, trace: seq<Update>, i: nat, j: nat)
    requires i <= j <= |trace| && forall k :: i <= k < j ==> !DropsAt(entryType, trace, k)
    ensures Received(entryType, trace[..i]) <= Received(entryType, trace[..j])
    decreases j
  {
    hide Received, DropsAt;
    if i < j {
      ReceivedBetween(entryType, trace, i, j - 1);
      assert trace[..j][..j - 1] == trace[..j - 1];
      ReceivedStep(entryType, trace[..j]);
      DropsAtPrefix(entryType, trace, j, j - 1);
    }
  }

  lemma DropsAtPrefix(entryType: string, trace: seq<Update>, n: nat, k: nat)
    requires k < n <= |trace|
    ensures DropsAt(entryType, trace[..n], k) <==> DropsAt(entryType, trace, k)
  {
    hide Counted;
    assert trace[..n][..k] == trace[..k];
  }

  // A trace restarts exactly if there is such an update.
  lemma {:induction false} RestartsIffDrops(entryType: string, trace: seq<Update>)
    ensures Restarts(entryType, trace) <==> exists k :: DropsAt(entryType, trace, k)
  {
    hide Restarts, CutOff, HasBytes, DropsAt;
    if trace == [] {
      NoRestart(entryType);
    } else {
      var n := |trace| - 1;
      RestartsIffDrops(entryType, trace[..n]);
      PrefixCases(entryType, trace);
      LastDrops(entryType, trace);
      forall k: nat | k < n
        ensures DropsAt(entryType, trace[..n], k) <==> DropsAt(entryType, trace, k)
      {
        DropsAtPrefix(entryType, trace, n, k);
      }
      assert forall k: nat :: DropsAt(entryType, trace, k) ==> k < |trace| by {
        DropsInside(entryType, trace);
      }
      assert forall k: nat :: DropsAt(entryType, trace[..n], k) ==> k < n by {
        DropsInside(entryType, trace[..n]);
      }
    }
  }

  lemma NoRestart(entryType: string)
    ensures !Restarts(entryType, []) && forall k :: !DropsAt(entryType, [], k)
  {
  }

  lemma DropsInside(entryType: string, trace: seq<Update>)
    ensures forall k: nat :: DropsAt(entryType, trace, k) ==> k < |trace|
  {
  }

  lemma LastDrops(entryType: string, trace: seq<Update>)
    requires trace != []
    ensures var n := |trace| - 1;
            && (DropsAt(entryType, trace, n) ==> IsPayload(entryType, trace[n]) && CutOff(entryType, trace[..n]))
            && (!Restarts(entryType, trace[..n]) && IsPayload(entryType, trace[n]) && CutOff(entryType, trace[..n])
                ==> DropsAt(entryType, trace, n))
  {
    hide Restarts, CutOff, HasBytes;
    var before := trace[..|trace| - 1];
    BlobInFlight(entryType, before);
    CutOffHasBytes(entryType, before);
    SumIsZero(entryType, before);
    CountedIsSumIff(entryType, before);
    RunIsSum(entryType, before);
  }

  // What progress stands for after the first i updates, shown or not.
  function ShownAt(total: u64, entryType: string, trace: seq<Update>, i: nat): u64
    requires 0 < i <= |trace|
  {
    Transferred(Replay(total, entryType, trace[..i]))
  }

  // It never goes back while a request runs, as long as no bytes are dropped by
  // a restart.
  lemma ShownNeverDecreases(total: u64, entryType: string, trace: seq<Update>, i: nat, j: nat)
    requires 0 < i <= j <= |trace| && (total == 0 || !Restarts(entryType, trace))
    ensures ShownAt(total, entryType, trace, i) <= ShownAt(total, entryType, trace, j)
  {
    hide Restarts, DropsAt, Received, Transferred, Replay;
    ShownIsReceived(total, entryType, trace[..i]);
    ShownIsReceived(total, entryType, trace[..j]);
    RestartsIffDrops(entryType, trace);
    if total > 0 {
      ReceivedBetween(entryType, trace, i, j);
    }
  }

  // Read after every update, shown or not, it is monotone exactly when the total
  // is zero or the trace does not restart.
  lemma PositionMonotoneIff(total: u64, entryType: string, trace: seq<Update>)
    ensures (forall i, j :: 0 < i <= j <= |trace| ==>
               ShownAt(total, entryType, trace, i) <= ShownAt(total, entryType, trace, j))
       <==> total == 0 || !Restarts(entryType, trace)
  {
    hide Restarts, ShownAt, DropsAt;
    RestartsIffDrops(entryType, trace);
    if total == 0 || !Restarts(entryType, trace) {
      forall i, j | 0 < i <= j <= |trace|
        ensures ShownAt(total, entryType, trace, i) <= ShownAt(total, entryType, trace, j)
      {
        ShownNeverDecreases(total, entryType, trace, i, j);
      }
    } else {
      var k: nat :| DropsAt(entryType, trace, k);
      DropFalls(total, entryType, trace, k);
    }
  }

  lemma DropFalls(total: u64, entryType: string, trace: seq<Update>, k: nat)
    requires total > 0 && DropsAt(entryType, trace, k)
    ensures 0 < k < |trace| && ShownAt(total, entryType, trace, k) > 0 == ShownAt(total, entryType, trace, k + 1)
  {
    hide Received, Replay, Transferred;
    assert trace[..k + 1][..k] == trace[..k];
    DropsAtPrefix(entryType, trace, k + 1, k);
    ReceivedStep(entryType, trace[..k + 1]);
    ShownIsReceived(total, entryType, trace[..k]);
    ShownIsReceived(total, entryType, trace[..k + 1]);
  }

  // -------------------------------------------------------- what is shown

  // The progress values shown for a trace: one for each Progress update.
  function ShownValues(total: u64, entryType: string, trace: seq<Update>): seq<u64> {
    if trace == [] then [] else
    var n := |trace| - 1;
    ShownValues(total, entryType, trace[..n])
    + if trace[n].Progress? then [Transferred(Replay(total, entryType, trace))] else []
  }

  predicate Rising(values: seq<u64>) {
    forall a, b :: 0 <= a <= b < |values| ==> values[a] <= values[b]
  }

  predicate Within(values: seq<u64>, limit: nat) {
    forall a :: 0 <= a < |values| ==> values[a] <= limit
  }

  lemma ShownSnoc(total: u64, entryType: string, trace: seq<Update>, u: Update)
    ensures ShownValues(total, entryType, trace + [u]) == ShownValues(total, entryType, trace)
              + if u.Progress? then [Transferred(Replay(total, entryType, trace + [u]))] else []
  {
    assert (trace + [u])[..|trace|] == trace;
  }

  // Where the Progress updates are.
  function ProgressAt(trace: seq<Update>): (r: seq<nat>)
    ensures forall a :: 0 <= a < |r| ==> r[a] < |trace| && trace[r[a]].Progress?
    ensures forall p :: 0 <= p < |trace| && trace[p].Progress? ==> p in r
    ensures forall a, b :: 0 <= a < b < |r| ==> r[a] < r[b]
  {
    if trace == [] then [] else
    var n := |trace| - 1;
    ProgressAt(trace[..n]) + if trace[n].Progress? then [n] else []
  }

  lemma {:induction false} ShownCount(total: u64, entryType: string, trace: seq<Update>)
    ensures |ShownValues(total, entryType, trace)| == |ProgressAt(trace)|
  {
    hide Transferred, Replay;
    if trace != [] {
      ShownCount(total, entryType, trace[..|trace| - 1]);
    }
  }

  // One value is shown for each of them, in order: the bytes received by then.
  lemma {:induction false} ShownEach(total: u64, entryType: string, trace: seq<Update>, a: nat)
    requires a < |ProgressAt(trace)|
    ensures |ShownValues(total, entryType, trace)| == |ProgressAt(trace)|
    ensures ShownValues(total, entryType, trace)[a]
         == Min(total, Received(entryType, trace[..ProgressAt(trace)[a] + 1]))
  {
    hide Received, Transferred, Replay;
    var n := |trace| - 1;
    ShownCount(total, entryType, trace[..n]);
    if a < |ProgressAt(trace[..n])| {
      ShownEach(total, entryType, trace[..n], a);
      var p := ProgressAt(trace[..n])[a];
      assert trace[..n][..p + 1] == trace[..p + 1];
    } else {
      ShownIsReceived(total, entryType, trace);
      assert trace[..n + 1] == trace;
    }
  }

  // Everything shown by the updates of a trace is at most a limit.
  predicate AllWithin(total: u64, entryType: string, trace: seq<Update>, limit: nat) {
    forall p :: 0 <= p < |trace| && trace[p].Progress? ==> Min(total, Received(entryType, trace[..p + 1])) <= limit
  }

  lemma AllWithinLast(total: u64, entryType: string, trace: seq<Update>, limit: nat)
    requires trace != []
    ensures var n := |trace| - 1;
            AllWithin(total, entryType, trace, limit) <==>
            && AllWithin(total, entryType, trace[..n], limit)
            && (trace[n].Progress? ==> Min(total, Received(entryType, trace)) <= limit)
  {
    hide Received;
    var n := |trace| - 1;
    assert trace[..n + 1] == trace;
    assert forall p :: 0 <= p < n ==> trace[..n][p] == trace[p] && trace[..n][..p + 1] == trace[..p + 1];
  }

  lemma {:induction false} ShownWithin(total: u64, entryType: string, trace: seq<Update>, limit: nat)
    ensures Within(ShownValues(total, entryType, trace), limit) <==> AllWithin(total, entryType, trace, limit)
  {
    hide Received, Transferred, Replay;
    if trace != [] {
      hide Within, AllWithin;
      var n := |trace| - 1;
      var before := ShownValues(total, entryType, trace[..n]);
      ShownWithin(total, entryType, trace[..n], limit);
      AllWithinLast(total, entryType, trace, limit);
      if trace[n].Progress? {
        ShownIsReceived(total, entryType, trace);
        WithinSnoc(before, Transferred(Replay(total, entryType, trace)), limit);
      } else {
        assert before + [] == before;
      }
    }
  }

  lemma WithinSnoc(values: seq<u64>, v: u64, limit: nat)
    ensures Within(values + [v], limit) <==> Within(values, limit) && v <= limit
  {
    if Within(values + [v], limit) {
      assert forall a :: 0 <= a < |values| ==> (values + [v])[a] == values[a];
      assert (values + [v])[|values|] == v;
    }
  }

  lemma RisingSnoc(values: seq<u64>, v: u64)
    ensures Rising(values + [v]) <==> Rising(values) && Within(values, v)
  {
    if Rising(values + [v]) {
      assert forall a :: 0 <= a < |values| ==> (values + [v])[a] == values[a];
      assert (values + [v])[|values|] == v;
    }
  }

  // A Progress update that comes after bytes were dropped at k and finds fewer
  // bytes received than an earlier one had shown.
  predicate SetBackAt(total: u64, entryType: string, trace: seq<Update>, p: nat, k: nat, q: nat) {
    && p < k < q < |trace| && trace[p].Progress? && trace[q].Progress? && DropsAt(entryType, trace, k)
    && Received(entryType, trace[..q + 1]) < Min(total, Received(entryType, trace[..p + 1]))
  }

  ghost predicate SetBack(total: u64, entryType: string, trace: seq<Update>) {
    exists p, k, q :: SetBackAt(total, entryType, trace, p, k, q)
  }

  lemma SetBackAtPrefix(total: u64, entryType: string, trace: seq<Update>, n: nat, p: nat, k: nat, q: nat)
    requires q < n <= |trace|
    ensures SetBackAt(total, entryType, trace[..n], p, k, q) <==> SetBackAt(total, entryType, trace, p, k, q)
  {
    hide Received, DropsAt;
    if p < k < q {
      DropsAtPrefix(entryType, trace, n, k);
      assert trace[..n][..p + 1] == trace[..p + 1] && trace[..n][..q + 1] == trace[..q + 1];
    }
  }

  // A last Progress update shows less than some earlier one exactly if bytes
  // were dropped between them.
  lemma LastSetsBack(total: u64, entryType: string, trace: seq<Update>)
    requires trace != [] && trace[|trace| - 1].Progress?
    ensures var n := |trace| - 1;
            AllWithin(total, entryType, trace[..n], Min(total, Received(entryType, trace))) <==>
            !exists p, k :: SetBackAt(total, entryType, trace, p, k, n)
  {
    hide Received, DropsAt;
    var n := |trace| - 1;
    assert trace[..n + 1] == trace;
    assert forall p :: 0 <= p < n ==> trace[..n][p] == trace[p] && trace[..n][..p + 1] == trace[..p + 1];
    if p :| 0 <= p < n && trace[p].Progress?
            && Min(total, Received(entryType, trace[..p + 1])) > Min(total, Received(entryType, trace)) {
      if k :| p < k < n && DropsAt(entryType, trace, k) {
        assert SetBackAt(total, entryType, trace, p, k, n);
      } else {
        NoDropAtProgress(entryType, trace, n);
        ReceivedBetween(entryType, trace, p + 1, n + 1);
      }
    }
  }

  lemma NoDropAtProgress(entryType: string, trace: seq<Update>, k: nat)
    requires k < |trace| && trace[k].Progress?
    ensures !DropsAt(entryType, trace, k)
  {
  }

  // The values shown never go back if and only if no Progress update after a
  // drop reports less than was shown before it.
  lemma {:induction false} ShownMonotoneIff(total: u64, entryType: string, trace: seq<Update>)
    ensures Rising(ShownValues(total, entryType, trace)) <==> !SetBack(total, entryType, trace)
  {
    hide Received, Transferred, Replay, SetBackAt, Rising, Within, AllWithin;
    if trace == [] {
      NothingSetsBack(total, entryType);
    } else {
      var n := |trace| - 1;
      ShownMonotoneIff(total, entryType, trace[..n]);
      SetBackCases(total, entryType, trace);
      if trace[n].Progress? {
        var shown := Transferred(Replay(total, entryType, trace));
        ShownIsReceived(total, entryType, trace);
        RisingSnoc(ShownValues(total, entryType, trace[..n]), shown);
        ShownWithin(total, entryType, trace[..n], shown);
        LastSetsBack(total, entryType, trace);
      } else {
        assert ShownValues(total, entryType, trace) == ShownValues(total, entryType, trace[..n]);
      }
    }
  }

  lemma NothingSetsBack(total: u64, entryType: string)
    ensures Rising(ShownValues(total, entryType, [])) && !SetBack(total, entryType, [])
  {
  }

  lemma SetBackCases(total: u64, entryType: string, trace: seq<Update>)
    requires trace != []
    ensures var n := |trace| - 1;
            && (SetBack(total, entryType, trace) <==>
                  SetBack(total, entryType, trace[..n]) || exists p, k :: SetBackAt(total, entryType, trace, p, k, n))
            && (!trace[n].Progress? ==> !exists p, k :: SetBackAt(total, entryType, trace, p, k, n))
  {
    hide Received, DropsAt;
    var n := |trace| - 1;
    if p: nat, k: nat, q: nat :| SetBackAt(total, entryType, trace, p, k, q) {
      assert q < n || q == n;
      if q < n {
        SetBackAtPrefix(total, entryType, trace, n, p, k, q);
      }
    }
    if p: nat, k: nat, q: nat :| SetBackAt(total, entryType, trace[..n], p, k, q) {
      SetBackAtPrefix(total, entryType, trace, n, p, k, q);
    }
  }

  // The values shown for a trace stay within the total; without a restart they
  // never go back.
  lemma ShownForTrace(total: u64, entryType: string, trace: seq<Update>)
    ensures Within(ShownValues(total, entryType, trace), total)
    ensures Rising(ShownValues(total, entryType, trace)) <==> !SetBack(total, entryType, trace)
    ensures total == 0 || !Restarts(entryType, trace) ==> Rising(ShownValues(total, entryType, trace))
  {
    hide Restarts, DropsAt, Received, Rising;
    ShownWithin(total, entryType, trace, total);
    ShownMonotoneIff(total, entryType, trace);
    RestartsIffDrops(entryType, trace);
  }

  // A restart sets the values shown back or not, depending on where Progress
  // falls.
  lemma RestartSetsBack()
    ensures var trace := [Started(1, 50), Progress(50), Started(0, 5), Started(2, 50), Progress(10)];
            && ShownValues(100, "collection", trace) == [50, 10]
            && Restarts("collection", trace) && SetBack(100, "collection", trace)
  {
    var trace: seq<Update> := [Started(1, 50), Progress(50), Started(0, 5), Started(2, 50), Progress(10)];
    RestartExample(50, 10);
    assert !Rising([50, 10]) by {
      assert [50, 10][0] > [50, 10][1];
    }
    ShownMonotoneIff(100, "collection", trace);
    RestartsIffDrops("collection", trace);
  }

  lemma RestartMayNotShow()
    ensures var trace := [Started(1, 50), Progress(10), Started(0, 5), Started(2, 50), Progress(50)];
            && ShownValues(100, "collection", trace) == [10, 50]
            && Restarts("collection", trace) && !SetBack(100, "collection", trace)
  {
    var trace: seq<Update> := [Started(1, 50), Progress(10), Started(0, 5), Started(2, 50), Progress(50)];
    RestartExample(10, 50);
    assert Rising([10, 50]);
    ShownMonotoneIff(100, "collection", trace);
  }

  lemma RestartExample(first: u64, second: u64)
    requires first <= 50 && second <= 50
    ensures var trace := [Started(1, 50), Progress(first), Started(0, 5), Started(2, 50), Progress(second)];
            ShownValues(100, "collection", trace) == [first, second] && Restarts("collection", trace)
  {
    var t1: seq<Update> := [Started(1, 50)];
    var t2 := t1 + [Progress(first)];
    var t3 := t2 + [Started(0, 5)];
    var t4 := t3 + [Started(2, 50)];
    var t5 := t4 + [Progress(second)];
    assert t5 == [Started(1, 50), Progress(first), Started(0, 5), Started(2, 50), Progress(second)];
    ShownSnoc(100, "collection", [], Started(1, 50));
    ShownSnoc(100, "collection", t1, Progress(first));
    ShownSnoc(100, "collection", t2, Started(0, 5));
    ShownSnoc(100, "collection", t3, Started(2, 50));
    ShownSnoc(100, "collection", t4, Progress(second));
    ReplaySnoc(100, "collection", [], Started(1, 50));
    ReplaySnoc(100, "collection", t1, Progress(first));
    ReplaySnoc(100, "collection", t2, Started(0, 5));
    ReplaySnoc(100, "collection", t3, Started(2, 50));
    ReplaySnoc(100, "collection", t4, Progress(second));
    assert HasBytes("collection", t5[..2]) by {
      assert t5[..2][0] == Started(1, 50);
    }
    assert t5[..3][..2] == t5[..2] && t5[..3][2] == Started(0, 5);
    assert CutOff("collection", t5[..3]);
    assert t5[3] == Started(2, 50);
  }

  // -------------------------------------------------------------- the task loop

  predicate Starts(u: Update) {
    u.Started? || u.Progress?
  }

  // Where a request starts (its first Started or Progress) and where it is
  // over (the first Completed or Aborted from there on).
  function FirstStart(updates: seq<Update>, k: nat): (r: nat)
    requires k <= |updates|
    ensures k <= r <= |updates| && (r < |updates| ==> updates[r].Started? || updates[r].Progress?)
    ensures forall j :: k <= j < r ==> updates[j].Completed? || updates[j].Aborted?
    decreases |updates| - k
  {
    if k == |updates| || Starts(updates[k]) then k else FirstStart(updates, k + 1)
  }

  function FirstEnd(updates: seq<Update>, k: nat): (r: nat)
    requires k <= |updates|
    ensures k <= r <= |updates| && (r < |updates| ==> updates[r].Completed? || updates[r].Aborted?)
    ensures forall j :: k <= j < r ==> updates[j].Started? || updates[j].Progress?
    decreases |updates| - k
  {
    if k == |updates| || !Starts(updates[k]) then k else FirstEnd(updates, k + 1)
  }

  lemma NoneShown(total: u64, entryType: string)
    ensures ShownValues(total, entryType, []) == []
  {
  }

  // One request's loop over its update channel, on its own.
  method TrackRequest(total: u64, entryType: string, updates: seq<Update>)
    returns (accounted: Option<u64>, shown: seq<u64>)
    ensures
      var b := FirstStart(updates, 0);
      var n := FirstEnd(updates, b);
      && shown == ShownValues(total, entryType, updates[b..n])
      && (n < |updates| && updates[n].Completed? ==> accounted == Some(Min(total, Counted(entryType, updates[b..n]))))
      && (n == |updates| || updates[n].Aborted? ==> accounted.None?)
      && Within(shown, total) && (Rising(shown) <==> !SetBack(total, entryType, updates[b..n]))
      && (total == 0 || !Restarts(entryType, updates[b..n]) ==> Rising(shown))
  {
    hide Apply, Counted, Settle, Transferred, Restarts, SetBack, Replay, ShownValues, Rising, Within;
    ShownForTrace(total, entryType, updates[FirstStart(updates, 0)..FirstEnd(updates, FirstStart(updates, 0))]);
    NoneShown(total, entryType);
    accounted, shown := None, [];
    ghost var b := FirstStart(updates, 0);
    var state: Option<TransferState> := None;
    for k := 0 to |updates|
      invariant state.None? ==> k <= b == FirstStart(updates, k)
      invariant state.Some? ==> b < k && FirstEnd(updates, b) == FirstEnd(updates, k)
      invariant state.Some? ==> state.value == Replay(total, entryType, updates[b..k])
      invariant shown == if state.Some? then ShownValues(total, entryType, updates[b..k]) else []
      invariant accounted.None?
    {
      var u := updates[k];
      if u.Completed? || u.Aborted? {
        if state.Some? {
          if u.Completed? {
            AccountedAtCompletion(total, entryType, updates[b..k]);
            accounted := Some(Settle(state.value).accounted);
          }
          return;
        }
      } else {
        var st := if state.Some? then state.value else Fresh(total, u);
        st := Apply(entryType, st, u);
        assert updates[b..k + 1] == updates[b..k] + [u];
        ReplaySnoc(total, entryType, updates[b..k], u);
        ShownSnoc(total, entryType, updates[b..k], u);
        state := Some(st);
        if u.Progress? {
          shown := shown + [Transferred(st)];
        }
      }
    }
  }
}
