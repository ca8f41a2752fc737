/**
 Appending to the ledger (apps/api/app/audit/store.py): commits are serialised by a
 lock, anchor writes are not, so they may land late, out of order, torn or never.
 */
module LedgerStore {
  import opened Wrappers
  import opened Ledger

  // ---------------------------------------------------------------------
  // The anchor file
  // ---------------------------------------------------------------------

  datatype FileLine = Empty | Malformed | Written(anchor: Anchor)

  function LatestOf(lines: seq<FileLine>): Option<Anchor> {
    if lines == [] then None
    else if lines[|lines| - 1].Written? then Some(lines[|lines| - 1].anchor)
    else LatestOf(lines[..|lines| - 1])
  }

  /** The file's lines; `open` when the last of them lacks its newline, so that the next write joins it. */
  datatype AnchorFile = AnchorFile(lines: seq<FileLine>, open: bool) {
    function Latest(): Option<Anchor> {
      LatestOf(lines)
    }
  }

  /** What a write stops short of: the whole record, or only its newline. */
  datatype Tear = Partial | NoNewline

  /** A line that joins an unfinished one does not parse, whatever either of them was. */
  function Extended(f: AnchorFile, line: FileLine, open: bool): AnchorFile
    requires f.open ==> f.lines != []
  {
    if f.open then AnchorFile(f.lines[..|f.lines| - 1] + [Malformed], open) else AnchorFile(f.lines + [line], open)
  }

  ghost predicate WellFormed(f: AnchorFile) {
    f.open ==> f.lines != []
  }

  class FileAnchorSink {
    var file: AnchorFile

    constructor ()
      ensures file == AnchorFile([], false)
    {
      file := AnchorFile([], false);
    }

    method Write(anchor: Anchor)
      requires WellFormed(file)
      modifies this
      ensures file == Extended(old(file), Written(anchor), false) && WellFormed(file)
    {
      if file.open {
        file := AnchorFile(file.lines[..|file.lines| - 1] + [Malformed], false);
      } else {
        file := AnchorFile(file.lines + [Written(anchor)], false);
      }
    }

    /** The last line that parses. */
    method Latest() returns (last: Option<Anchor>)
      ensures last == file.Latest()
    {
      last := None;
      for i := 0 to |file.lines|
        invariant last == LatestOf(file.lines[..i])
      {
        assert file.lines[..i + 1][..i] == file.lines[..i];
        if file.lines[i].Written? {
          last := Some(file.lines[i].anchor);
        }
      }
      assert file.lines[..|file.lines|] == file.lines;
    }
  }

  // ---------------------------------------------------------------------
  // Commits and anchor writes as separate steps
  // ---------------------------------------------------------------------

  /** A committed record whose anchor is yet to be written. */
  datatype Pending = Pending(signer: Signer, head: string, count: nat)

  datatype State = State(rows: seq<Row>, pending: seq<Pending>, file: AnchorFile)

  const START := State([], [], AnchorFile([], false))

  /** Everything about an approval but its predecessor, which the store fills in. */
  datatype Approval = Approval(threadId: string, decision: string, feedback: string, actor: string,
                               actorRole: string, evidence: Evidence, createdAt: string)

  function HeadHash(rows: seq<Row>): string {
    Previous(rows, |rows|)
  }

  function HeadKeyId(rows: seq<Row>): string {
    if rows == [] then "" else rows[|rows| - 1].keyId
  }

  function RecordAfter(rows: seq<Row>, a: Approval): Record {
    Record(a.threadId, a.decision, a.feedback, a.actor, a.actorRole, a.evidence, a.createdAt, HeadHash(rows))
  }

  /** The record says what the approval says, fact by fact. */
  ghost predicate Says(r: Record, a: Approval) {
    && r.threadId == a.threadId && r.decision == a.decision && r.feedback == a.feedback && r.actor == a.actor
    && r.actorRole == a.actorRole && r.evidence == a.evidence && r.createdAt == a.createdAt
  }

  /** Row i attests to the approval, right after its predecessor, hashed and signed. */
  ghost predicate Attests(c: Crypto, signer: Signer, a: Approval, rows: seq<Row>, i: nat) {
    && i < |rows| && Says(rows[i].record, a) && Linked(rows, i) && Intact(c, rows[i])
    && rows[i].keyId == signer.keyId && rows[i].signature == signer.sign(rows[i].hash)
  }

  /** This is the hash of the record that would attest to the approval. */
  ghost predicate Attesting(c: Crypto, a: Approval, rows: seq<Row>, hash: string) {
    exists r: Record :: Says(r, a) && r.prevHash == Previous(rows, |rows|) && c.hash(r) == hash
  }

  /** The table's UNIQUE constraint on the hash. */
  predicate HashTaken(rows: seq<Row>, hash: string) {
    exists i | 0 <= i < |rows| :: rows[i].hash == hash
  }

  /** One locked transaction: seal after the current head, insert, leave the anchor to be written. */
  function Committed(c: Crypto, s: State, signer: Signer, a: Approval): State {
    var row := Seal(c, signer, RecordAfter(s.rows, a));
    if HashTaken(s.rows, row.hash) then s
    else State(s.rows + [row], s.pending + [Pending(signer, row.hash, |s.rows| + 1)], s.file)
  }

  function RotationApproval(previous: string, next: string, createdAt: string): Approval {
    Approval("ledger", "key-rotation", "", "system", "system", KeyRotation(previous, next), createdAt)
  }

  /** No marker for an empty ledger, nor when the active key signed last. */
  function RotationEnsured(c: Crypto, s: State, active: Signer, createdAt: string): State {
    var last := HeadKeyId(s.rows);
    if last == "" || last == active.keyId then s
    else Committed(c, s, active, RotationApproval(last, active.keyId, createdAt))
  }

  function Landed(c: Crypto, s: State, i: nat, at: string): State
    requires WellFormed(s.file)
  {
    if i < |s.pending| then
      var p := s.pending[i];
      State(s.rows, s.pending[..i] + s.pending[i + 1..],
            Extended(s.file, Written(SealAnchor(c, p.signer, p.head, p.count, at)), false))
    else s
  }

  /** The process dies before the write, or in the middle of it. */
  function Lost(c: Crypto, s: State, i: nat, at: string, torn: Option<Tear>): State
    requires WellFormed(s.file)
  {
    if i < |s.pending| then
      var p, pending := s.pending[i], s.pending[..i] + s.pending[i + 1..];
      match torn
      case None => State(s.rows, pending, s.file)
      case Some(Partial) => State(s.rows, pending, Extended(s.file, Malformed, true))
      case Some(NoNewline) =>
        State(s.rows, pending, Extended(s.file, Written(SealAnchor(c, p.signer, p.head, p.count, at)), true))
    else s
  }

  class ApprovalStore {
    const crypto: Crypto
    var rows: seq<Row>
    var pending: seq<Pending>
    const sink: FileAnchorSink

    constructor (crypto: Crypto, sink: FileAnchorSink)
      requires sink.file == AnchorFile([], false)
      ensures this.sink == sink && this.crypto == crypto && Now() == START
    {
      this.crypto, this.sink, this.rows, this.pending := crypto, sink, [], [];
    }

    function Now(): State
      reads this, sink
    {
      State(rows, pending, sink.file)
    }

    /** The transaction of `append_approval`; `None` when the insert violates the constraint. */
    method AppendApproval(signer: Signer, a: Approval) returns (sealed: Option<Row>)
      modifies this
      ensures Now() == Committed(crypto, old(Now()), signer, a)
      ensures sealed.Some? ==> rows == old(rows) + [sealed.value] && Attests(crypto, signer, a, rows, |old(rows)|)
      ensures sealed.Some? ==> pending == old(pending) + [Pending(signer, sealed.value.hash, |rows|)]
      ensures sealed.None? ==> Now() == old(Now())
      ensures sealed.None? <==> exists i :: 0 <= i < |old(rows)| && Attesting(crypto, a, old(rows), old(rows)[i].hash)
    {
      var row := Seal(crypto, signer, RecordAfter(rows, a));
      if HashTaken(rows, row.hash) {
        return None;
      }
      var count := |rows|;
      rows := rows + [row];
      pending := pending + [Pending(signer, row.hash, count + 1)];
      sealed := Some(row);
    }

    method EnsureRotationRecord(active: Signer, createdAt: string) returns (sealed: Option<Row>)
      modifies this
      ensures Now() == RotationEnsured(crypto, old(Now()), active, createdAt)
      ensures sealed.Some? ==> rows == old(rows) + [sealed.value]
      ensures sealed.None? ==> Now() == old(Now())
    {
      var last := HeadKeyId(rows);
      if last == "" || last == active.keyId {
        return None;
      }
      sealed := AppendApproval(active, RotationApproval(last, active.keyId, createdAt));
    }

    /** The write that follows a commit, whenever it gets its turn. */
    method WriteAnchor(i: nat, at: string)
      requires i < |pending| && WellFormed(sink.file)
      modifies this, sink
      ensures Now() == Landed(crypto, old(Now()), i, at)
    {
      var p := pending[i];
      pending := pending[..i] + pending[i + 1..];
      sink.Write(SealAnchor(crypto, p.signer, p.head, p.count, at));
    }
  }

  // ---------------------------------------------------------------------
  // Every interleaving verifies
  // ---------------------------------------------------------------------

  datatype Event =
    | Append(signer: Signer, approval: Approval)
    | EnsureRotation(signer: Signer, createdAt: string)
    | AnchorLands(index: nat, at: string)
    | AnchorLost(index: nat, at: string, torn: Option<Tear>)

  function Step(c: Crypto, s: State, e: Event): (s': State)
    requires WellFormed(s.file)
    ensures WellFormed(s'.file)
  {
    match e
    case Append(signer, a) => Committed(c, s, signer, a)
    case EnsureRotation(signer, createdAt) => RotationEnsured(c, s, signer, createdAt)
    case AnchorLands(i, at) => Landed(c, s, i, at)
    case AnchorLost(i, at, torn) => Lost(c, s, i, at, torn)
  }

  function After(c: Crypto, events: seq<Event>): (s: State)
    ensures WellFormed(s.file)
  {
    if events == [] then START else Step(c, After(c, events[..|events| - 1]), events[|events| - 1])
  }

  ghost predicate SignersTrusted(c: Crypto, keys: Keys, events: seq<Event>) {
    forall i | 0 <= i < |events| ::
      events[i].Append? || events[i].EnsureRotation? ==> Trusted(c, keys, events[i].signer)
  }

  /** A head and count that the rows bear out, now and after any append. */
  ghost predicate Truthful(rows: seq<Row>, head: string, count: nat) {
    0 < count <= |rows| && rows[count - 1].hash == head
  }

  ghost predicate Inv(c: Crypto, keys: Keys, s: State) {
    && ChainValid(c, keys, s.rows)
    && (forall i | 0 <= i < |s.pending| ::
          Trusted(c, keys, s.pending[i].signer) && Truthful(s.rows, s.pending[i].head, s.pending[i].count))
    && WellFormed(s.file)
    && (forall i | 0 <= i < |s.file.lines| && s.file.lines[i].Written? ::
        TrueAnchor(c, keys, s.rows, s.file.lines[i].anchor))
  }

  ghost predicate TrueAnchor(c: Crypto, keys: Keys, rows: seq<Row>, a: Anchor) {
    AnchorVerifies(c, keys, a) && Truthful(rows, a.headHash, a.recordCount)
  }

  lemma CommitKeepsInv(c: Crypto, keys: Keys, s: State, signer: Signer, a: Approval)
    requires Inv(c, keys, s) && Trusted(c, keys, signer)
    ensures Inv(c, keys, Committed(c, s, signer, a))
  {
    var s' := Committed(c, s, signer, a);
    if s' != s {
      forall i: nat | i < |s'.rows| ensures RowValid(c, keys, s'.rows, i) {
        if i < |s.rows| {
          assert RowValid(c, keys, s.rows, i);
          assert Previous(s'.rows, i) == Previous(s.rows, i);
        } else {
          assert Previous(s'.rows, i) == HeadHash(s.rows);
        }
      }
    }
  }

  lemma AnchorStepKeepsInv(c: Crypto, keys: Keys, s: State, i: nat, at: string, torn: Option<Tear>)
    requires Inv(c, keys, s)
    ensures Inv(c, keys, Landed(c, s, i, at)) && Inv(c, keys, Lost(c, s, i, at, torn))
  {
    hide ChainValid;
  }

  lemma {:induction false} EveryStateSatisfiesInv(c: Crypto, keys: Keys, events: seq<Event>)
    requires SignersTrusted(c, keys, events)
    ensures Inv(c, keys, After(c, events))
  {
    hide Inv, Committed, Landed, Lost, Trusted;
    if events == [] {
      StartSatisfiesInv(c, keys);
    } else {
      var front, e := events[..|events| - 1], events[|events| - 1];
      EveryStateSatisfiesInv(c, keys, front);
      var s := After(c, front);
      match e
      case Append(signer, a) => CommitKeepsInv(c, keys, s, signer, a);
      case EnsureRotation(signer, createdAt) =>
        CommitKeepsInv(c, keys, s, signer, RotationApproval(HeadKeyId(s.rows), signer.keyId, createdAt));
      case AnchorLands(i, at) => AnchorStepKeepsInv(c, keys, s, i, at, None);
      case AnchorLost(i, at, torn) => AnchorStepKeepsInv(c, keys, s, i, at, torn);
    }
  }

  lemma StartSatisfiesInv(c: Crypto, keys: Keys)
    ensures Inv(c, keys, START)
  {
  }

  lemma {:induction false} LatestIsWritten(lines: seq<FileLine>)
    ensures LatestOf(lines).Some? ==> Written(LatestOf(lines).value) in lines
    ensures LatestOf(lines).None? ==> forall i | 0 <= i < |lines| :: !lines[i].Written?
  {
    if lines != [] {
      LatestIsWritten(lines[..|lines| - 1]);
    }
  }

  /**
   However appends, rotation markers and late, lost, torn or reordered anchor writes
   interleave, the ledger verifies and passes the check against whichever anchor is
   last in the file.
   */
  lemma EveryInterleavingVerifies(c: Crypto, keys: Keys, events: seq<Event>)
    requires SignersTrusted(c, keys, events)
    ensures var s := After(c, events);
            && ChainValid(c, keys, s.rows)
            && CheckAgainstAnchor(c, s.rows, s.file.Latest(), keys).ok
  {
    EveryStateSatisfiesInv(c, keys, events);
    LatestIsWritten(After(c, events).file.lines);
  }

  // ---------------------------------------------------------------------
  // Ledgers cut short
  // ---------------------------------------------------------------------

  lemma PrefixIsValid(c: Crypto, keys: Keys, rows: seq<Row>, k: nat)
    requires ChainValid(c, keys, rows) && k <= |rows|
    ensures ChainValid(c, keys, rows[..k])
  {
    forall i: nat | i < k ensures RowValid(c, keys, rows[..k], i) {
      assert RowValid(c, keys, rows, i);
    }
  }

  /**
   In every reachable state a ledger cut to its first k rows is accepted exactly when
   the last anchor in the file, which need not be the highest, covers no more than k.
   */
  lemma CutIsAcceptedExactlyWhen(c: Crypto, keys: Keys, events: seq<Event>, k: nat)
    requires SignersTrusted(c, keys, events) && k <= |After(c, events).rows|
    ensures var s := After(c, events);
            StartupAccepts(c, keys, s.rows[..k], s.file.Latest()) <==>
              match s.file.Latest()
              case None => k == 0
              case Some(anchor) => anchor.recordCount <= k
  {
    var s := After(c, events);
    EveryStateSatisfiesInv(c, keys, events);
    LatestIsWritten(s.file.lines);
    PrefixIsValid(c, keys, s.rows, k);
    hide ChainValid, AnchorVerifies;
  }

  /** Two approvals whose anchors are written in the other order: the second may be cut off unnoticed. */
  lemma ReorderedAnchorsHideACut(c: Crypto, keys: Keys, signer: Signer, a: Approval, b: Approval, at: string)
    requires Injective(c) && Trusted(c, keys, signer) && a.threadId != b.threadId
    ensures var s := After(c, [Append(signer, a), Append(signer, b), AnchorLands(1, at), AnchorLands(0, at)]);
            && |s.rows| == 2 && StartupAccepts(c, keys, s.rows, s.file.Latest())
            && Written(SealAnchor(c, signer, s.rows[1].hash, 2, at)) in s.file.lines
            && StartupAccepts(c, keys, s.rows[..1], s.file.Latest())
  {
    var two := [Append(signer, a), Append(signer, b)];
    var events := [Append(signer, a), Append(signer, b), AnchorLands(1, at), AnchorLands(0, at)];
    assert events == two + [AnchorLands(1, at)] + [AnchorLands(0, at)];
    OneMoreStep(c, two, AnchorLands(1, at));
    OneMoreStep(c, two + [AnchorLands(1, at)], AnchorLands(0, at));
    TwoApprovals(c, signer, a, b);
    hide After, StartupAccepts;
    var s := After(c, events);
    assert s.rows[..2] == s.rows;
    assert s.file.lines[0] == Written(SealAnchor(c, signer, s.rows[1].hash, 2, at));
    CutIsAcceptedExactlyWhen(c, keys, events, 1);
    CutIsAcceptedExactlyWhen(c, keys, events, 2);
  }

  lemma TwoApprovals(c: Crypto, signer: Signer, a: Approval, b: Approval)
    requires Injective(c) && a.threadId != b.threadId
    ensures var first := Seal(c, signer, RecordAfter([], a));
            var second := Seal(c, signer, RecordAfter([first], b));
            After(c, [Append(signer, a), Append(signer, b)]) ==
              State([first, second], [Pending(signer, first.hash, 1), Pending(signer, second.hash, 2)],
                    AnchorFile([], false))
  {
    assert [Append(signer, a), Append(signer, b)] == [] + [Append(signer, a)] + [Append(signer, b)];
    OneMoreStep(c, [], Append(signer, a));
    OneMoreStep(c, [] + [Append(signer, a)], Append(signer, b));
    var first := Seal(c, signer, RecordAfter([], a));
    var second := Seal(c, signer, RecordAfter([first], b));
    assert After(c, [] + [Append(signer, a)])
           == State([first], [Pending(signer, first.hash, 1)], AnchorFile([], false));
    assert first.record != second.record;
  }

  lemma OneMoreStep(c: Crypto, events: seq<Event>, e: Event)
    ensures After(c, events + [e]) == Step(c, After(c, events), e)
  {
    assert (events + [e])[..|events|] == events;
  }

  /** A restart finds the first k rows and forgets what was pending. */
  function Cut(s: State, k: nat): State
    requires k <= |s.rows|
  {
    State(s.rows[..k], [], s.file)
  }

  /** A marker is due and its insert is not refused. */
  predicate Rotates(c: Crypto, s: State, active: Signer, createdAt: string) {
    var last := HeadKeyId(s.rows);
    && last != "" && last != active.keyId
    && !HashTaken(s.rows, Marker(c, s, active, createdAt).hash)
  }

  function Marker(c: Crypto, s: State, active: Signer, createdAt: string): Row {
    Seal(c, active, RecordAfter(s.rows, RotationApproval(HeadKeyId(s.rows), active.keyId, createdAt)))
  }

  /** Start-up writes the marker and its anchor before it looks at either. */
  function Started(c: Crypto, s: State, active: Signer, createdAt: string, at: string): State
    requires WellFormed(s.file)
  {
    var rotated := RotationEnsured(c, s, active, createdAt);
    if |rotated.rows| > |s.rows| then Landed(c, rotated, |rotated.pending| - 1, at) else rotated
  }

  lemma StartedIs(c: Crypto, s: State, active: Signer, createdAt: string, at: string)
    requires WellFormed(s.file) && s.pending == []
    ensures Started(c, s, active, createdAt, at) ==
              if Rotates(c, s, active, createdAt) then
                var marker := Marker(c, s, active, createdAt);
                var anchor := SealAnchor(c, active, marker.hash, |s.rows| + 1, at);
                State(s.rows + [marker], [], Extended(s.file, Written(anchor), false))
              else s
  {
  }

  /** The anchor start-up reads when it has rotated: its own, unless that joined an unfinished line. */
  function AnchorBefore(f: AnchorFile): Option<Anchor>
    requires WellFormed(f)
  {
    if f.open then LatestOf(f.lines[..|f.lines| - 1]) else f.Latest()
  }

  /**
   After a ledger is cut to k rows, a start with a key that did not sign the last of them
   writes a fresh anchor and is accepted, whatever was anchored before.  Otherwise the
   last anchor decides; and so does the one before it when the fresh one was spoilt by an
   unfinished line, with the marker as one row more.
   */
  lemma StartAfterCutExactlyWhen(c: Crypto, keys: Keys, events: seq<Event>, k: nat, active: Signer, createdAt: string,
                                 at: string)
    requires SignersTrusted(c, keys, events) && k <= |After(c, events).rows| && Trusted(c, keys, active)
    ensures var cut := Cut(After(c, events), k);
            var s := Started(c, cut, active, createdAt, at);
            StartupAccepts(c, keys, s.rows, s.file.Latest()) <==>
              if Rotates(c, cut, active, createdAt) then
                !cut.file.open ||
                match AnchorBefore(cut.file)
                case None => false
                case Some(anchor) =>
                  || anchor.recordCount <= k
                  || (anchor.recordCount == k + 1 && anchor.headHash == Marker(c, cut, active, createdAt).hash)
              else
                match cut.file.Latest()
                case None => k == 0
                case Some(anchor) => anchor.recordCount <= k
  {
    hide StartupAccepts, ChainValid, Started, Rotates, Marker, After, Extended;
    var origin := After(c, events);
    var cut := Cut(origin, k);
    EveryStateSatisfiesInv(c, keys, events);
    StartedIs(c, cut, active, createdAt, at);
    if Rotates(c, cut, active, createdAt) {
      PrefixIsValid(c, keys, origin.rows, k);
      MarkerContinues(c, keys, cut, active, createdAt);
      RotatedStart(c, keys, origin, k, active, createdAt, at);
    } else {
      CutIsAcceptedExactlyWhen(c, keys, events, k);
    }
  }

  lemma MarkerContinues(c: Crypto, keys: Keys, s: State, active: Signer, createdAt: string)
    requires ChainValid(c, keys, s.rows) && Trusted(c, keys, active)
    ensures ChainValid(c, keys, s.rows + [Marker(c, s, active, createdAt)])
  {
    var rows := s.rows + [Marker(c, s, active, createdAt)];
    forall i: nat | i < |rows| ensures RowValid(c, keys, rows, i) {
      if i < |s.rows| {
        assert RowValid(c, keys, s.rows, i);
        assert Previous(rows, i) == Previous(s.rows, i);
      } else {
        assert Previous(rows, i) == HeadHash(s.rows);
      }
    }
  }

  lemma RotatedStart(c: Crypto, keys: Keys, origin: State, k: nat, active: Signer, createdAt: string, at: string)
    requires Inv(c, keys, origin) && k <= |origin.rows| && Trusted(c, keys, active)
    requires ChainValid(c, keys, origin.rows[..k] + [Marker(c, Cut(origin, k), active, createdAt)])
    ensures var marker := Marker(c, Cut(origin, k), active, createdAt);
            var rows, anchor := origin.rows[..k] + [marker], SealAnchor(c, active, marker.hash, k + 1, at);
            StartupAccepts(c, keys, rows, Extended(origin.file, Written(anchor), false).Latest()) <==>
              || !origin.file.open
              || match AnchorBefore(origin.file)
                 case None => false
                 case Some(earlier) =>
                   earlier.recordCount <= k || (earlier.recordCount == k + 1 && earlier.headHash == marker.hash)
  {
    hide ChainValid, Marker;
    if origin.file.open {
      var lines := origin.file.lines[..|origin.file.lines| - 1];
      LatestIsWritten(lines);
      assert (lines + [Malformed])[..|lines|] == lines;
    } else {
      assert AnchorVerifies(c, keys,
                            SealAnchor(c, active, Marker(c, Cut(origin, k), active, createdAt).hash, k + 1, at));
    }
  }

  // ---------------------------------------------------------------------
  // Key changes are marked
  // ---------------------------------------------------------------------

  /** A deployment: the ledger, the active key, and whether a marker was ensured since it became active. */
  datatype Deployment = Deployment(state: State, active: Signer, ensured: bool)

  datatype Operation =
    | Activate(signer: Signer)
    | Ensure(createdAt: string)
    | Approve(approval: Approval)
    | Anchoring(event: Event)

  function Operated(c: Crypto, d: Deployment, op: Operation): (d': Deployment)
    requires WellFormed(d.state.file)
    ensures WellFormed(d'.state.file)
  {
    match op
    case Activate(signer) => Deployment(d.state, signer, false)
    case Ensure(createdAt) =>
      var state := RotationEnsured(c, d.state, d.active, createdAt);
      // The marker's insert may itself be refused, and then nothing was ensured.
      d.(state := state, ensured := HeadKeyId(state.rows) == "" || HeadKeyId(state.rows) == d.active.keyId)
    // Approvals wait for the marker: the discipline the theorem is about.
    case Approve(a) => if d.ensured then d.(state := Committed(c, d.state, d.active, a)) else d
    case Anchoring(e) => if e.AnchorLands? || e.AnchorLost? then d.(state := Step(c, d.state, e)) else d
  }

  function Deployed(c: Crypto, first: Signer, ops: seq<Operation>): (d: Deployment)
    ensures WellFormed(d.state.file)
  {
    if ops == [] then Deployment(START, first, true)
    else Operated(c, Deployed(c, first, ops[..|ops| - 1]), ops[|ops| - 1])
  }

  /** Row i was signed by another key than its predecessor, and says so, naming both. */
  ghost predicate MarksRotation(rows: seq<Row>, i: nat)
    requires 0 < i < |rows|
  {
    && rows[i].record.decision == "key-rotation"
    && rows[i].record.evidence == KeyRotation(rows[i - 1].keyId, rows[i].keyId)
  }

  ghost predicate ChangesMarked(rows: seq<Row>) {
    forall i: nat | 0 < i < |rows| && rows[i].keyId != rows[i - 1].keyId :: MarksRotation(rows, i)
  }

  ghost predicate NamedKeys(first: Signer, ops: seq<Operation>) {
    first.keyId != "" && forall i | 0 <= i < |ops| && ops[i].Activate? :: ops[i].signer.keyId != ""
  }

  ghost predicate HeadIs(rows: seq<Row>, keyId: string) {
    HeadKeyId(rows) == "" || HeadKeyId(rows) == keyId
  }

  ghost predicate KeysNamed(rows: seq<Row>) {
    forall i | 0 <= i < |rows| :: rows[i].keyId != ""
  }

  /** A commit keeps the marks when it continues with the same key or is itself the marker. */
  lemma CommitKeepsMarks(c: Crypto, s: State, signer: Signer, a: Approval)
    requires ChangesMarked(s.rows) && KeysNamed(s.rows) && signer.keyId != ""
    requires HeadIs(s.rows, signer.keyId) || exists at :: a == RotationApproval(HeadKeyId(s.rows), signer.keyId, at)
    ensures var rows := Committed(c, s, signer, a).rows;
            ChangesMarked(rows) && KeysNamed(rows) && (rows != s.rows ==> HeadKeyId(rows) == signer.keyId)
  {
    var rows := Committed(c, s, signer, a).rows;
    if rows != s.rows {
      forall i: nat | 0 < i < |rows| && rows[i].keyId != rows[i - 1].keyId ensures MarksRotation(rows, i) {
        if i < |s.rows| {
          assert MarksRotation(s.rows, i);
        }
      }
    }
  }

  /** When a marker is ensured after each activation and before the next approval, every
      change of signing key in the ledger sits at a rotation record naming both keys. */
  lemma {:induction false} EveryKeyChangeIsMarked(c: Crypto, first: Signer, ops: seq<Operation>)
    requires NamedKeys(first, ops)
    ensures var d := Deployed(c, first, ops);
            && ChangesMarked(d.state.rows) && KeysNamed(d.state.rows)
            && d.active.keyId != ""
            && (d.ensured ==> HeadIs(d.state.rows, d.active.keyId))
  {
    hide ChangesMarked, KeysNamed, Committed;
    if ops == [] {
      NothingToMark();
    } else {
      var d, op := Deployed(c, first, ops[..|ops| - 1]), ops[|ops| - 1];
      EveryKeyChangeIsMarked(c, first, ops[..|ops| - 1]);
      assert op.Activate? ==> op.signer.keyId != "";
      match op
      case Approve(a) => if d.ensured { CommitKeepsMarks(c, d.state, d.active, a); }
      case Ensure(at) => CommitKeepsMarks(c, d.state, d.active,
                                          RotationApproval(HeadKeyId(d.state.rows), d.active.keyId, at));
      case _ =>
    }
  }

  lemma NothingToMark()
    ensures ChangesMarked([]) && KeysNamed([])
  {
  }
}
