/**
 The hash-chained approval ledger and its external anchor
 (apps/api/app/audit/ledger.py, anchor.py and startup.py).

 The record hash, the anchor digest and signature verification are parameters;
 what a theorem needs of them, such as an injective record hash, it says.
 */
module Ledger {
  import opened Wrappers

  const GENESIS_HASH: string := "0000000000000000000000000000000000000000000000000000000000000000"

  datatype Evidence = Facts(text: string) | KeyRotation(previousKeyId: string, newKeyId: string)

  /** The facts attested to; the hash covers every field. */
  datatype Record = Record(
    threadId: string, decision: string, feedback: string, actor: string, actorRole: string,
    evidence: Evidence, createdAt: string, prevHash: string)

  /** A table row: the record sealed by hash and signature. */
  datatype Row = Row(record: Record, hash: string, signature: string, keyId: string)

  datatype Anchor = Anchor(headHash: string, recordCount: nat, anchoredAt: string, keyId: string, signature: string)

  datatype Crypto = Crypto(
    hash: Record -> string,
    digest: (string, nat, string, string) -> string,
    verify: (string, string, string) -> bool)

  datatype Signer = Signer(keyId: string, publicKey: string, sign: string -> string)

  type Keys = map<string, string>

  function Seal(c: Crypto, signer: Signer, record: Record): Row {
    Row(record, c.hash(record), signer.sign(c.hash(record)), signer.keyId)
  }

  function AnchorDigest(c: Crypto, a: Anchor): string {
    c.digest(a.headHash, a.recordCount, a.anchoredAt, a.keyId)
  }

  function SealAnchor(c: Crypto, signer: Signer, head: string, count: nat, at: string): Anchor {
    var a := Anchor(head, count, at, signer.keyId, "");
    a.(signature := signer.sign(AnchorDigest(c, a)))
  }

  // ---------------------------------------------------------------------
  // Walking the chain
  // ---------------------------------------------------------------------

  datatype Fault = NoFault | BrokenLink | WrongContents | UnknownKey | BadSignature

  datatype ChainReport = ChainReport(ok: bool, checked: nat, brokenAt: Option<nat>, fault: Fault)

  predicate Known(keys: Keys, keyId: string) {
    keyId in keys && keys[keyId] != ""
  }

  function FaultOf(c: Crypto, keys: Keys, row: Row, previous: string): Fault {
    if row.record.prevHash != previous then BrokenLink
    else if c.hash(row.record) != row.hash then WrongContents
    else if !Known(keys, row.keyId) then UnknownKey
    else if !c.verify(keys[row.keyId], row.hash, row.signature) then BadSignature
    else NoFault
  }

  function Previous(rows: seq<Row>, i: nat): string
    requires i <= |rows|
  {
    if i == 0 then GENESIS_HASH else rows[i - 1].hash
  }

  ghost predicate RowValid(c: Crypto, keys: Keys, rows: seq<Row>, i: nat) {
    i < |rows| && FaultOf(c, keys, rows[i], Previous(rows, i)) == NoFault
  }

  ghost predicate ChainValid(c: Crypto, keys: Keys, rows: seq<Row>) {
    forall i: nat | i < |rows| :: RowValid(c, keys, rows, i)
  }

  // What each fault is about.

  /** The row names the hash of the one before it, or the genesis hash. */
  ghost predicate Linked(rows: seq<Row>, i: nat)
    requires i < |rows|
  {
    if i == 0 then rows[0].record.prevHash == GENESIS_HASH else rows[i].record.prevHash == rows[i - 1].hash
  }

  /** The row carries the hash of its own contents. */
  ghost predicate Intact(c: Crypto, row: Row) {
    c.hash(row.record) == row.hash
  }

  ghost predicate KeyTrusted(keys: Keys, keyId: string) {
    keyId in keys && keys[keyId] != ""
  }

  /** The row's signature is one of its hash by the key it names. */
  ghost predicate Signed(c: Crypto, keys: Keys, row: Row) {
    KeyTrusted(keys, row.keyId) && c.verify(keys[row.keyId], row.hash, row.signature)
  }

  ghost predicate Sound(c: Crypto, keys: Keys, rows: seq<Row>, i: nat) {
    i < |rows| && Linked(rows, i) && Intact(c, rows[i]) && Signed(c, keys, rows[i])
  }

  /** The fault is the first of the four that the row has. */
  ghost predicate FirstFault(c: Crypto, keys: Keys, rows: seq<Row>, i: nat, fault: Fault)
    requires i < |rows|
  {
    && (fault == BrokenLink <==> !Linked(rows, i))
    && (fault == WrongContents <==> Linked(rows, i) && !Intact(c, rows[i]))
    && (fault == UnknownKey <==> Linked(rows, i) && Intact(c, rows[i]) && !KeyTrusted(keys, rows[i].keyId))
    && (fault == BadSignature <==>
          && Linked(rows, i) && Intact(c, rows[i]) && KeyTrusted(keys, rows[i].keyId)
          && !c.verify(keys[rows[i].keyId], rows[i].hash, rows[i].signature))
  }

  lemma FaultIsTheFirst(c: Crypto, keys: Keys, rows: seq<Row>, i: nat)
    requires i < |rows|
    ensures FirstFault(c, keys, rows, i, FaultOf(c, keys, rows[i], Previous(rows, i)))
    ensures RowValid(c, keys, rows, i) <==> Sound(c, keys, rows, i)
  {
  }

  /** A chain is valid exactly when every row is linked, intact and signed by a trusted key. */
  lemma ChainValidExactlyWhen(c: Crypto, keys: Keys, rows: seq<Row>)
    ensures ChainValid(c, keys, rows) <==> forall i: nat | i < |rows| :: Sound(c, keys, rows, i)
  {
    forall i: nat | i < |rows| ensures RowValid(c, keys, rows, i) <==> Sound(c, keys, rows, i) {
      FaultIsTheFirst(c, keys, rows, i);
    }
    hide RowValid, Sound;
  }

  /** Accepts exactly the sound chains, and otherwise names the first unsound record and its first fault. */
  method VerifyChain(c: Crypto, keys: Keys, rows: seq<Row>) returns (report: ChainReport)
    ensures report.ok <==> ChainValid(c, keys, rows)
    ensures report.ok <==> forall i: nat | i < |rows| :: Sound(c, keys, rows, i)
    ensures report.ok ==> report == ChainReport(true, |rows|, None, NoFault)
    ensures !report.ok ==>
              && report.checked < |rows| && report.brokenAt == Some(report.checked) && report.fault != NoFault
              && FirstFault(c, keys, rows, report.checked, report.fault)
              && forall i: nat | i < report.checked :: Sound(c, keys, rows, i)
  {
    ChainValidExactlyWhen(c, keys, rows);
    var previous := GENESIS_HASH;
    for index := 0 to |rows|
      invariant previous == Previous(rows, index)
      invariant forall i: nat | i < index :: Sound(c, keys, rows, i)
    {
      var row := rows[index];
      FaultIsTheFirst(c, keys, rows, index);
      if row.record.prevHash != previous {
        return ChainReport(false, index, Some(index), BrokenLink);
      }
      if c.hash(row.record) != row.hash {
        return ChainReport(false, index, Some(index), WrongContents);
      }
      if !Known(keys, row.keyId) {
        return ChainReport(false, index, Some(index), UnknownKey);
      }
      if !c.verify(keys[row.keyId], row.hash, row.signature) {
        return ChainReport(false, index, Some(index), BadSignature);
      }
      previous := row.hash;
    }
    report := ChainReport(true, |rows|, None, NoFault);
  }

  // ---------------------------------------------------------------------
  // Comparing with the anchor
  // ---------------------------------------------------------------------

  datatype AnchorFault = NoAnchorFault | NoAnchor | AnchorDoesNotVerify | RecordsMissing | HistoryRewritten

  datatype AnchorCheck = AnchorCheck(ok: bool, fault: AnchorFault, anchorPresent: bool)

  predicate AnchorVerifies(c: Crypto, keys: Keys, a: Anchor) {
    Known(keys, a.keyId) && c.verify(keys[a.keyId], AnchorDigest(c, a), a.signature)
  }

  function CheckAgainstAnchor(c: Crypto, rows: seq<Row>, anchor: Option<Anchor>, keys: Keys): AnchorCheck {
    match anchor
    case None => AnchorCheck(true, NoAnchor, false)
    case Some(a) =>
      if !AnchorVerifies(c, keys, a) then AnchorCheck(false, AnchorDoesNotVerify, true)
      else if |rows| < a.recordCount then AnchorCheck(false, RecordsMissing, true)
      else if a.recordCount > 0 && rows[a.recordCount - 1].hash != a.headHash
          then AnchorCheck(false, HistoryRewritten, true)
      else AnchorCheck(true, NoAnchorFault, true)
  }

  /** What the check against an anchor reports, and when. */
  lemma AnchorCheckExactlyWhen(c: Crypto, rows: seq<Row>, a: Anchor, keys: Keys)
    ensures var check := CheckAgainstAnchor(c, rows, Some(a), keys);
            var genuine := KeyTrusted(keys, a.keyId) && c.verify(keys[a.keyId], AnchorDigest(c, a), a.signature);
            && check.anchorPresent
            && (check.fault == AnchorDoesNotVerify <==> !genuine)
            && (check.fault == RecordsMissing <==> genuine && |rows| < a.recordCount)
            && (check.fault == HistoryRewritten <==>
                  genuine && 0 < a.recordCount <= |rows| && rows[a.recordCount - 1].hash != a.headHash)
            && (check.ok <==>
                  genuine && a.recordCount <= |rows|
                    && (a.recordCount > 0 ==> rows[a.recordCount - 1].hash == a.headHash))
    ensures CheckAgainstAnchor(c, rows, None, keys) == AnchorCheck(true, NoAnchor, false)
  {
  }

  /** Signatures by this signer are bound to what was signed, and the digest to the anchor's four facts. */
  ghost predicate Binding(c: Crypto, signer: Signer) {
    && (forall d, d' :: c.verify(signer.publicKey, d', signer.sign(d)) ==> d' == d)
    && (forall h, n, at, k, h', n', at', k' ::
          c.digest(h, n, at, k) == c.digest(h', n', at', k') ==> h == h' && n == n' && at == at' && k == k')
  }

  /** An anchor altered in its head, its count or its time no longer verifies. */
  lemma AlteredAnchorIsRejected(c: Crypto, keys: Keys, signer: Signer, head: string, count: nat, at: string,
                                altered: Anchor)
    requires Trusted(c, keys, signer) && Binding(c, signer)
    requires altered.keyId == signer.keyId
    requires altered.signature == SealAnchor(c, signer, head, count, at).signature
    ensures AnchorVerifies(c, keys, altered) <==> altered == SealAnchor(c, signer, head, count, at)
  {
  }

  /** The check made at startup: a ledger with records needs a valid chain and a matching anchor. */
  ghost predicate StartupAccepts(c: Crypto, keys: Keys, rows: seq<Row>, anchor: Option<Anchor>) {
    var check := CheckAgainstAnchor(c, rows, anchor, keys);
    ChainValid(c, keys, rows) && check.ok && (rows != [] ==> check.anchorPresent)
  }

  // ---------------------------------------------------------------------
  // Tamper evidence
  // ---------------------------------------------------------------------

  ghost predicate Injective(c: Crypto) {
    forall a, b :: c.hash(a) == c.hash(b) ==> a == b
  }

  /** Records and hashes of the first n rows are those of the honest ledger. */
  ghost predicate AgreeUpTo(rows: seq<Row>, honest: seq<Row>, n: nat) {
    && n <= |rows| && n <= |honest|
    && forall i | 0 <= i < n :: rows[i].record == honest[i].record && rows[i].hash == honest[i].hash
  }

  /** One matching hash drags every earlier record with it. */
  lemma {:induction false} HashFixesHistory(c: Crypto, keys: Keys, keys': Keys, rows: seq<Row>, honest: seq<Row>,
                                            n: nat)
    requires Injective(c) && ChainValid(c, keys, rows) && ChainValid(c, keys', honest)
    requires 0 < n <= |rows| && n <= |honest| && rows[n - 1].hash == honest[n - 1].hash
    ensures AgreeUpTo(rows, honest, n)
  {
    assert RowValid(c, keys, rows, n - 1) && RowValid(c, keys', honest, n - 1);
    if n > 1 {
      HashFixesHistory(c, keys, keys', rows, honest, n - 1);
    }
  }

  /**
   With an injective hash, a valid chain passes the check against an anchor sealed
   over n records of an honest ledger exactly when its first n records and hashes
   are the honest ones: editing, reordering, removing, truncating or restoring an
   older copy of anything below the anchor is caught.
   */
  lemma AnchorCheckIsExact(c: Crypto, keys: Keys, keys': Keys, rows: seq<Row>, honest: seq<Row>, anchor: Anchor)
    requires Injective(c) && ChainValid(c, keys, rows) && ChainValid(c, keys', honest)
    requires 0 < anchor.recordCount <= |honest| && anchor.headHash == honest[anchor.recordCount - 1].hash
    requires AnchorVerifies(c, keys, anchor)
    ensures CheckAgainstAnchor(c, rows, Some(anchor), keys).ok <==> AgreeUpTo(rows, honest, anchor.recordCount)
  {
    var n := anchor.recordCount;
    if n <= |rows| && rows[n - 1].hash == honest[n - 1].hash {
      HashFixesHistory(c, keys, keys', rows, honest, n);
    }
  }

  /** What startup accepts agrees with the anchored history on every hashed field. */
  lemma AcceptedLedgerIsHonest(c: Crypto, keys: Keys, keys': Keys, rows: seq<Row>, honest: seq<Row>,
                               signer: Signer, n: nat, at: string)
    requires Injective(c) && ChainValid(c, keys', honest) && 0 < n <= |honest|
    requires StartupAccepts(c, keys, rows, Some(SealAnchor(c, signer, honest[n - 1].hash, n, at)))
    ensures AgreeUpTo(rows, honest, n)
  {
    AnchorCheckIsExact(c, keys, keys', rows, honest, SealAnchor(c, signer, honest[n - 1].hash, n, at));
  }

  ghost predicate Trusted(c: Crypto, keys: Keys, signer: Signer) {
    && Known(keys, signer.keyId) && keys[signer.keyId] == signer.publicKey
    && forall d :: c.verify(signer.publicKey, d, signer.sign(d))
  }

  /** The limit of the guarantee: who signed a record is not part of what the hash covers. */
  lemma ResigningIsNotDetected(c: Crypto, keys: Keys, rows: seq<Row>, anchor: Option<Anchor>, i: nat, signer: Signer)
    requires StartupAccepts(c, keys, rows, anchor) && i < |rows| && Trusted(c, keys, signer)
    ensures StartupAccepts(c, keys, rows[i := Seal(c, signer, rows[i].record)], anchor)
  {
    var resigned := rows[i := Seal(c, signer, rows[i].record)];
    assert RowValid(c, keys, rows, i);
    forall k: nat | k < |resigned| ensures RowValid(c, keys, resigned, k) {
      assert RowValid(c, keys, rows, k);
    }
  }

  /** Without an anchor a truncated ledger verifies; with one at its head it does not. */
  lemma TruncationNeedsTheAnchor(c: Crypto, keys: Keys, rows: seq<Row>, k: nat, signer: Signer, at: string)
    requires ChainValid(c, keys, rows) && k < |rows| && Trusted(c, keys, signer)
    ensures ChainValid(c, keys, rows[..k]) && CheckAgainstAnchor(c, rows[..k], None, keys).ok
    ensures !CheckAgainstAnchor(c, rows[..k], Some(SealAnchor(c, signer, rows[|rows| - 1].hash, |rows|, at)), keys).ok
  {
    forall i: nat | i < k ensures RowValid(c, keys, rows[..k], i) {
      assert RowValid(c, keys, rows, i);
    }
  }
}
