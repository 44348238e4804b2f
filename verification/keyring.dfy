/** Envelope encryption under numbered keys, a ring of them, and the sweep that
    moves stored secrets to the primary one. */
module Keyring {
  import opened Basics

  type Byte = x: int | 0 <= x < 256
  type Bytes = seq<Byte>
  type Version = x: int | 0 <= x < 65536

  const VersionSize: nat := 2
  const NonceSize: nat := 12

  // ---- One cipher ---------------------------------------------------------------

  /** AES-256-GCM under one key, as the two functions it provides. */
  datatype Aead = Aead(seal: (Bytes, Bytes) -> Bytes, open: (Bytes, Bytes) -> Option<Bytes>)

  /** Opening undoes sealing under the same nonce. */
  ghost predicate Sound(a: Aead) {
    forall nonce, pt {:trigger a.seal(nonce, pt)} ::
      |nonce| == NonceSize ==> a.open(nonce, a.seal(nonce, pt)) == Some(pt)
  }

  datatype Cipher = Cipher(version: Version, aead: Aead)

  datatype Opened = Plain(pt: Bytes) | TooShort | WrongVersion | NotAuthentic | NoKey

  /** Big-endian. */
  function Header(v: Version): Bytes { [v / 256, v % 256] }

  function KeyVersion(ct: Bytes): Version {
    if |ct| < VersionSize then 0 else Joined(ct[0], ct[1])
  }

  function Joined(hi: Byte, lo: Byte): Version {
    var high: int := hi;
    256 * high + lo
  }

  /** version || nonce || sealed output */
  function Sealed(c: Cipher, nonce: Bytes, pt: Bytes): Bytes {
    Header(c.version) + nonce + c.aead.seal(nonce, pt)
  }

  method Encrypt(c: Cipher, nonce: Bytes, pt: Bytes) returns (ct: Bytes)
    requires |nonce| == NonceSize
    ensures ct == Sealed(c, nonce, pt)
    ensures |ct| >= 14 && ct[0] == c.version / 256 && ct[1] == c.version % 256
    ensures ct[2..14] == nonce && ct[14..] == c.aead.seal(nonce, pt)
  {
    var out := new Byte[VersionSize + NonceSize](_ => 0);
    out[0] := c.version / 256;
    out[1] := c.version % 256;
    for i := 0 to NonceSize
      invariant out[0] == c.version / 256 && out[1] == c.version % 256
      invariant forall j :: 0 <= j < i ==> out[VersionSize + j] == nonce[j]
    {
      out[VersionSize + i] := nonce[i];
    }
    assert out[..] == Header(c.version) + nonce;
    SealedParts(c, nonce, pt);
    return out[..] + c.aead.seal(nonce, pt);
  }

  function Decrypt(c: Cipher, ct: Bytes): Opened {
    if |ct| < VersionSize + NonceSize then TooShort
    else if KeyVersion(ct) != c.version then WrongVersion
    else
      match c.aead.open(ct[VersionSize..VersionSize + NonceSize], ct[VersionSize + NonceSize..])
      case Some(pt) => Plain(pt)
      case None => NotAuthentic
  }

  /** The header carries every version, and nothing after it disturbs that. */
  lemma HeaderRoundTrips(v: Version, rest: Bytes)
    ensures KeyVersion(Header(v) + rest) == v
  {
    var ct := Header(v) + rest;
    assert ct[0] == v / 256 && ct[1] == v % 256;
    assert Joined(v / 256, v % 256) == v;
  }

  /** Every two leading bytes are the header of the version read from them. */
  lemma HeaderOfRead(ct: Bytes)
    requires |ct| >= VersionSize
    ensures Header(KeyVersion(ct)) == ct[..VersionSize]
  {
    JoinedSplits(ct[0], ct[1]);
  }

  /** What a cipher opens is long enough, carries its own version, and is authentic
      under its key; nothing else opens. */
  lemma OpensOnlyItsOwn(c: Cipher, ct: Bytes, pt: Bytes)
    ensures Decrypt(c, ct) == Plain(pt) <==>
      && |ct| >= 14 && ct[0] == c.version / 256 && ct[1] == c.version % 256
      && c.aead.open(ct[2..14], ct[14..]) == Some(pt)
  {
    if |ct| >= 14 {
      JoinedSplits(ct[0], ct[1]);
      assert Joined(c.version / 256, c.version % 256) == c.version;
    }
  }

  lemma JoinedSplits(hi: Byte, lo: Byte)
    ensures Joined(hi, lo) / 256 == hi && Joined(hi, lo) % 256 == lo
  {
  }

  lemma CipherRoundTrips(c: Cipher, nonce: Bytes, pt: Bytes)
    requires Sound(c.aead) && |nonce| == NonceSize
    ensures Decrypt(c, Sealed(c, nonce, pt)) == Plain(pt) && KeyVersion(Sealed(c, nonce, pt)) == c.version
  {
    var body := c.aead.seal(nonce, pt);
    var ct := Sealed(c, nonce, pt);
    SealedParts(c, nonce, pt);
    HeaderRoundTrips(c.version, nonce + body);
    assert c.aead.open(nonce, body) == Some(pt);
  }

  lemma SealedParts(c: Cipher, nonce: Bytes, pt: Bytes)
    requires |nonce| == NonceSize
    ensures Sealed(c, nonce, pt) == Header(c.version) + (nonce + c.aead.seal(nonce, pt))
    ensures |Sealed(c, nonce, pt)| >= VersionSize + NonceSize
    ensures Sealed(c, nonce, pt)[VersionSize..VersionSize + NonceSize] == nonce
    ensures Sealed(c, nonce, pt)[VersionSize + NonceSize..] == c.aead.seal(nonce, pt)
  {
    var h, body := Header(c.version), c.aead.seal(nonce, pt);
    assert h + nonce + body == h + (nonce + body);
    assert (h + nonce + body)[2..14] == nonce;
    assert (h + nonce + body)[14..] == body;
  }

  // ---- The ring -----------------------------------------------------------------

  datatype Ring = Ring(primary: Cipher, byVersion: map<Version, Cipher>)

  ghost predicate ValidRing(kr: Ring) {
    && kr.primary.version in kr.byVersion && kr.byVersion[kr.primary.version] == kr.primary
    && forall v :: v in kr.byVersion ==> kr.byVersion[v].version == v
  }

  /** Position i holds a cipher, the first of its version. */
  ghost predicate FirstAt(cs: seq<Option<Cipher>>, i: nat)
    requires i < |cs|
  {
    cs[i].Some? && forall j :: 0 <= j < i && cs[j].Some? ==> cs[j].value.version != cs[i].value.version
  }

  /** Nil ciphers are refused; a version already present is never replaced, so the
      primary wins over previous keys and earlier ones over later. */
  method NewKeyring(primary: Option<Cipher>, previous: seq<Option<Cipher>>) returns (r: Option<Ring>)
    ensures r.Some? <==> primary.Some? && forall i :: 0 <= i < |previous| ==> previous[i].Some?
    ensures r.Some? ==> ValidRing(r.value) && r.value.primary == primary.value
    ensures r.Some? ==> forall v :: v in r.value.byVersion && v != primary.value.version ==>
      exists i :: 0 <= i < |previous| && FirstAt(previous, i) && previous[i].value == r.value.byVersion[v]
    ensures r.Some? ==> forall i :: 0 <= i < |previous| ==>
      previous[i].Some? && previous[i].value.version in r.value.byVersion
  {
    if primary.None? { return None; }
    var byVersion: map<Version, Cipher> := map[primary.value.version := primary.value];
    for k := 0 to |previous|
      invariant ValidRing(Ring(primary.value, byVersion))
      invariant forall i :: 0 <= i < k ==> previous[i].Some? && previous[i].value.version in byVersion
      invariant forall v :: v in byVersion && v != primary.value.version ==>
        exists i :: 0 <= i < k && FirstAt(previous, i) && previous[i].value == byVersion[v]
    {
      if previous[k].None? { return None; }
      var c := previous[k].value;
      if c.version !in byVersion {
        assert FirstAt(previous, k);
        byVersion := byVersion[c.version := c];
      }
    }
    return Some(Ring(primary.value, byVersion));
  }

  function RingDecrypt(kr: Ring, ct: Bytes): Opened {
    var v := KeyVersion(ct);
    if v in kr.byVersion then Decrypt(kr.byVersion[v], ct) else NoKey
  }

  /** The other processes of the fleet: they hold at least the rotating ring's
      keys, whichever of them they seal with themselves. */
  ghost predicate HoldsKeysOf(reader: Ring, kr: Ring) {
    forall v :: v in kr.byVersion ==> v in reader.byVersion && reader.byVersion[v] == kr.byVersion[v]
  }

  /** What the primary seals opens on every ring that holds the keys. */
  lemma RingRoundTrips(kr: Ring, reader: Ring, nonce: Bytes, pt: Bytes)
    requires ValidRing(kr) && Sound(kr.primary.aead) && |nonce| == NonceSize && HoldsKeysOf(reader, kr)
    ensures RingDecrypt(reader, Sealed(kr.primary, nonce, pt)) == Plain(pt)
    ensures KeyVersion(Sealed(kr.primary, nonce, pt)) == kr.primary.version && Sealed(kr.primary, nonce, pt) != []
  {
    CipherRoundTrips(kr.primary, nonce, pt);
    SealedParts(kr.primary, nonce, pt);
    assert kr.primary.version in kr.byVersion;
  }

  /** Empty, or already under the primary version. */
  ghost predicate Current(kr: Ring, field: Bytes) {
    field == [] || KeyVersion(field) == kr.primary.version
  }

  /** What a stored secret may go through: a current one stays as it is; another is
      left, or resealed so that every reader recovers the same plaintext. */
  ghost predicate Moved(kr: Ring, reader: Ring, before: Bytes, after: Bytes) {
    || after == before
    || (&& !Current(kr, before) && Current(kr, after) && after != []
        && RingDecrypt(reader, before).Plain? && RingDecrypt(reader, after) == RingDecrypt(reader, before))
  }

  datatype Resealed = Resealed(field: Bytes, changed: bool) | Failed

  method Reencrypt(kr: Ring, ghost reader: Ring, field: Bytes, nonce: Option<Bytes>) returns (r: Resealed)
    requires ValidRing(kr) && Sound(kr.primary.aead) && (nonce.Some? ==> |nonce.value| == NonceSize)
    requires HoldsKeysOf(reader, kr)
    ensures r.Resealed? ==>
      && Moved(kr, reader, field, r.field)
      && Current(kr, r.field)
      && (r.changed <==> !Current(kr, field))
      && (!r.changed ==> r.field == field)
    ensures r.Failed? <==> !Current(kr, field) && (!RingDecrypt(kr, field).Plain? || nonce.None?)
  {
    if field == [] || KeyVersion(field) == kr.primary.version { return Resealed(field, false); }
    match RingDecrypt(kr, field) {
      case Plain(pt) =>
        if nonce.None? { return Failed; }
        var ct := Encrypt(kr.primary, nonce.value, pt);
        RingRoundTrips(kr, reader, nonce.value, pt);
        return Resealed(ct, true);
      case _ => return Failed;
    }
  }

  // ---- The rotation sweep -----------------------------------------------------------

  type Cells = map<nat, Bytes>

  /** The rows that a sweep brought under the primary version. */
  ghost function Advanced(kr: Ring, before: Cells, after: Cells): set<nat>
    requires before.Keys == after.Keys
  {
    set id | id in before && !Current(kr, before[id]) && Current(kr, after[id])
  }

  ghost predicate AllCurrent(kr: Ring, cells: Cells) {
    forall id :: id in cells ==> Current(kr, cells[id])
  }

  /** Every secret is current already or opens on the ring. */
  ghost predicate AllOpen(kr: Ring, cells: Cells) {
    forall id :: id in cells ==> Current(kr, cells[id]) || RingDecrypt(kr, cells[id]).Plain?
  }

  ghost predicate AllMoved(kr: Ring, reader: Ring, before: Cells, after: Cells) {
    before.Keys == after.Keys && forall id :: id in before ==> Moved(kr, reader, before[id], after[id])
  }

  /** Two sweeps, the first perhaps cut short, move no secret further than one, and
      when the first left nothing to do the second writes nothing. */
  lemma SweepsCompose(kr: Ring, reader: Ring, a: Cells, b: Cells, c: Cells)
    requires AllMoved(kr, reader, a, b) && AllMoved(kr, reader, b, c)
    ensures AllMoved(kr, reader, a, c)
    ensures Advanced(kr, a, b) + Advanced(kr, b, c) == Advanced(kr, a, c) && Advanced(kr, a, b) !! Advanced(kr, b, c)
    ensures AllCurrent(kr, b) ==> c == b && Advanced(kr, b, c) == {}
  {
    forall id | id in a ensures Moved(kr, reader, a[id], c[id]) {
      assert Moved(kr, reader, a[id], b[id]) && Moved(kr, reader, b[id], c[id]);
    }
    forall id | id in a ensures Current(kr, a[id]) ==> Current(kr, b[id]) {
      assert Moved(kr, reader, a[id], b[id]);
    }
    forall id | id in b ensures Current(kr, b[id]) ==> c[id] == b[id] {
      assert Moved(kr, reader, b[id], c[id]);
    }
  }

  /** No reader loses a secret it could read. */
  lemma ReadersKeepReading(kr: Ring, reader: Ring, before: Cells, after: Cells, id: nat)
    requires AllMoved(kr, reader, before, after) && id in before
    ensures RingDecrypt(reader, after[id]) == RingDecrypt(reader, before[id])
  {
    assert Moved(kr, reader, before[id], after[id]);
  }

  class Column {
    var cells: Cells

    constructor (cells: Cells)
      ensures this.cells == cells
    {
      this.cells := cells;
    }

    /** One row of the sweep: reseal, and update only when that changed it. */
    method SweepRow(kr: Ring, ghost reader: Ring, id: nat, field: Bytes, nonce: Option<Bytes>)
          returns (ok: bool, changed: bool)
      requires ValidRing(kr) && Sound(kr.primary.aead)
      requires (nonce.Some? ==> |nonce.value| == NonceSize) && HoldsKeysOf(reader, kr)
      requires id in cells && cells[id] == field
      modifies this
      ensures cells.Keys == old(cells).Keys && cells == old(cells)[id := cells[id]]
      ensures Moved(kr, reader, field, cells[id])
      ensures ok ==> Current(kr, cells[id])
      ensures ok <==> Current(kr, field) || (RingDecrypt(kr, field).Plain? && nonce.Some?)
      ensures changed <==> ok && !Current(kr, field)
      ensures !changed ==> cells == old(cells)
    {
      var r := Reencrypt(kr, reader, field, nonce);
      if r.Failed? { return false, false; }
      if r.changed { cells := cells[id := r.field]; }
      return true, r.changed;
    }

    /** reencryptColumn over the rows read up front, interrupted after `stop` rows
        if that comes first. `nonces` is the random source, which may fail. */
    method Sweep(kr: Ring, ghost reader: Ring, items: seq<(nat, Bytes)>, nonces: nat -> Option<Bytes>,
                 stop: nat) returns (changed: nat, done: bool)
      requires ValidRing(kr) && Sound(kr.primary.aead) && HoldsKeysOf(reader, kr)
      requires forall i :: nonces(i).Some? ==> |nonces(i).value| == NonceSize
      requires Snapshot(items, cells)
      modifies this
      ensures AllMoved(kr, reader, old(cells), cells)
      ensures changed == |Advanced(kr, old(cells), cells)|
      ensures done ==> AllCurrent(kr, cells)
      ensures AllCurrent(kr, old(cells)) && stop >= |items| ==> done
      ensures stop >= |items| && (forall i :: nonces(i).Some?) && AllOpen(kr, old(cells)) ==> done
    {
      ghost var before := cells;
      changed := 0;
      for i := 0 to |items|
        invariant i <= stop && AllMoved(kr, reader, before, cells)
        invariant Pending(kr, items, cells, i)
        invariant changed == |Advanced(kr, before, cells)|
      {
        if i == stop { return changed, false; }
        ghost var was := cells;
        StillAsRead(items, before, cells, i, kr);
        var ok, ch := SweepRow(kr, reader, items[i].0, items[i].1, nonces(i));
        RowAdvances(kr, reader, before, was, cells, items[i].0, ch);
        if ch { changed := changed + 1; }
        if !ok { return changed, false; }
        StillPending(kr, items, was, cells, i);
      }
      NonePending(kr, items, before, cells);
      done := true;
    }
  }

  /** Rows from i on are as read; those before it are current. */
  ghost predicate Pending(kr: Ring, items: seq<(nat, Bytes)>, cells: Cells, i: nat) {
    && (forall j :: i <= j < |items| ==> items[j].0 in cells && cells[items[j].0] == items[j].1)
    && (forall j :: 0 <= j < i && j < |items| ==> items[j].0 in cells && Current(kr, cells[items[j].0]))
  }

  lemma StillAsRead(items: seq<(nat, Bytes)>, before: Cells, cells: Cells, i: nat, kr: Ring)
    requires Snapshot(items, before) && Pending(kr, items, cells, i) && i < |items|
    ensures items[i].0 in cells && cells[items[i].0] == items[i].1 == before[items[i].0]
  {
  }

  lemma StillPending(kr: Ring, items: seq<(nat, Bytes)>, was: Cells, cells: Cells, i: nat)
    requires i < |items| && Pending(kr, items, was, i)
    requires (forall a, b :: 0 <= a < b < |items| ==> items[a].0 != items[b].0)
    requires items[i].0 in cells && cells == was[items[i].0 := cells[items[i].0]] && Current(kr, cells[items[i].0])
    ensures Pending(kr, items, cells, i + 1)
  {
  }

  lemma NonePending(kr: Ring, items: seq<(nat, Bytes)>, before: Cells, cells: Cells)
    requires Snapshot(items, before) && before.Keys == cells.Keys && Pending(kr, items, cells, |items|)
    ensures AllCurrent(kr, cells)
  {
    forall id | id in cells ensures Current(kr, cells[id]) {
      assert id in before;
      var i :| 0 <= i < |items| && items[i].0 == id;
    }
  }

  /** What the select returned: each row once, with its stored value. */
  ghost predicate Snapshot(items: seq<(nat, Bytes)>, cells: Cells) {
    && (forall i, j :: 0 <= i < j < |items| ==> items[i].0 != items[j].0)
    && (forall i :: 0 <= i < |items| ==> items[i].0 in cells && cells[items[i].0] == items[i].1)
    && (forall id :: id in cells ==> exists i :: 0 <= i < |items| && items[i].0 == id)
  }

  lemma RowAdvances(kr: Ring, reader: Ring, before: Cells, was: Cells, now: Cells, id: nat, changed: bool)
    requires AllMoved(kr, reader, before, was) && id in was && was[id] == before[id]
    requires now.Keys == was.Keys && now == was[id := now[id]] && Moved(kr, reader, was[id], now[id])
    requires changed <==> !Current(kr, was[id]) && Current(kr, now[id])
    ensures AllMoved(kr, reader, before, now)
    ensures |Advanced(kr, before, now)| == |Advanced(kr, before, was)| + if changed then 1 else 0
  {
    assert id !in Advanced(kr, before, was);
    assert Advanced(kr, before, now) == Advanced(kr, before, was) + if changed then {id} else {};
  }
}
