/**
  The picker's encryption envelope. `encrypt` derives an AES-GCM key with PBKDF2 from the
  process key and a fresh random 16-byte salt, seals the name under a fresh random
  12-byte IV, and stores salt ‖ iv ‖ ciphertext; `decrypt` splits that buffer at offsets
  16 and 28 and opens the last part.

  The cipher is abstract: `seal(salt, iv, plaintext)` and `open(salt, iv, ciphertext)`
  stand for key derivation plus AES-GCM under the fixed process key, and the only thing
  assumed of them is that `open` inverts `seal` (`Inverts`). The random salt and IV are
  parameters. The base64 text wrapped around the bytes is not modelled.
 */
module Codec {
  import opened Wrappers
  import opened Ledger

  newtype byte = x: int | 0 <= x < 256

  const SaltLength: nat := 16
  const IvLength: nat := 12
  /** Where the ciphertext starts in the combined buffer. */
  const DataOffset: nat := SaltLength + IvLength

  type Seal = (seq<byte>, seq<byte>, string) -> seq<byte>
  type Open = (seq<byte>, seq<byte>, seq<byte>) -> Option<string>

  /** Decryption with the salt and IV used to encrypt gives the plaintext back. */
  ghost predicate Inverts(seal: Seal, open: Open) {
    forall salt, iv, text :: open(salt, iv, seal(salt, iv, text)) == Some(text)
  }

  /** The combined buffer: salt, then IV, then ciphertext. */
  function Layout(salt: seq<byte>, iv: seq<byte>, data: seq<byte>): seq<byte> {
    salt + iv + data
  }

  /** `Uint8Array.prototype.set(src, offset)`: copies `src` into `dst` from `offset` on and leaves the rest alone. */
  method SetAt(dst: array<byte>, src: seq<byte>, offset: nat)
    requires offset + |src| <= dst.Length
    modifies dst
    ensures dst[..] == old(dst[..offset]) + src + old(dst[offset + |src|..])
  {
    for i := 0 to |src|
      invariant dst[..offset] == old(dst[..offset])
      invariant dst[offset..offset + i] == src[..i]
      invariant dst[offset + i..] == old(dst[offset + i..])
    {
      dst[offset + i] := src[i];
    }
    assert dst[..] == dst[..offset] + dst[offset..offset + |src|] + dst[offset + |src|..];
  }

  /** Allocates a buffer of the total length and sets the three parts at offsets 0, |salt| and |salt| + |iv|. */
  method Combine(salt: seq<byte>, iv: seq<byte>, data: seq<byte>) returns (combined: array<byte>)
    ensures fresh(combined)
    ensures combined[..] == Layout(salt, iv, data)
  {
    combined := new byte[|salt| + |iv| + |data|];
    SetAt(combined, salt, 0);
    SetAt(combined, iv, |salt|);
    SetAt(combined, data, |salt| + |iv|);
  }

  /** `Uint8Array.prototype.slice(from, to)` for non-negative bounds, which it clamps to the length. */
  function Slice(s: seq<byte>, from: nat, to: nat): (r: seq<byte>)
    ensures from <= to <= |s| ==> r == s[from..to]
    ensures |s| <= from ==> r == []
    ensures from <= |s| <= to ==> r == s[from..]
    ensures to < from ==> r == []
  {
    var b := if from <= |s| then from else |s|;
    var e := if to <= |s| then to else |s|;
    if b <= e then s[b..e] else []
  }

  datatype Parts = Parts(salt: seq<byte>, iv: seq<byte>, data: seq<byte>)

  /** `slice(0, 16)`, `slice(16, 28)` and `slice(28)` of the combined buffer. */
  function Split(combined: seq<byte>): (p: Parts)
    ensures |p.salt| <= SaltLength && |p.iv| <= IvLength
    ensures DataOffset <= |combined| ==>
              p.salt == combined[..SaltLength] && p.iv == combined[SaltLength..DataOffset]
              && p.data == combined[DataOffset..]
  {
    Parts(Slice(combined, 0, SaltLength), Slice(combined, SaltLength, DataOffset),
          Slice(combined, DataOffset, |combined|))
  }

  /** Splitting a packed buffer recovers exactly the 16-byte salt, the 12-byte IV and the ciphertext. */
  lemma SplitLayout(salt: seq<byte>, iv: seq<byte>, data: seq<byte>)
    requires |salt| == SaltLength && |iv| == IvLength
    ensures Split(Layout(salt, iv, data)) == Parts(salt, iv, data)
  {
    var c := Layout(salt, iv, data);
    assert c[..SaltLength] == salt;
    assert c[SaltLength..DataOffset] == iv;
    assert c[DataOffset..] == data;
  }

  /** Splitting loses nothing: the three parts, put back together, are the buffer, whatever its length. */
  lemma SplitLossless(combined: seq<byte>)
    ensures var p := Split(combined); Layout(p.salt, p.iv, p.data) == combined
  {
    var n := |combined|;
    if n <= SaltLength {
      assert Split(combined) == Parts(combined, [], []);
    } else if n <= DataOffset {
      assert Split(combined) == Parts(combined[..SaltLength], combined[SaltLength..], []);
    } else {
      assert combined == combined[..SaltLength] + combined[SaltLength..DataOffset] + combined[DataOffset..];
    }
  }

  /** The stored bytes for `text` under the given salt and IV. */
  function Sealed(seal: Seal, salt: seq<byte>, iv: seq<byte>, text: string): seq<byte> {
    Layout(salt, iv, seal(salt, iv, text))
  }

  /** `encrypt`: seal under the fresh random salt and IV and pack the three parts. */
  method Encrypt(seal: Seal, salt: seq<byte>, iv: seq<byte>, text: string) returns (stored: seq<byte>)
    requires |salt| == SaltLength && |iv| == IvLength
    ensures stored == Sealed(seal, salt, iv, text)
  {
    var combined := Combine(salt, iv, seal(salt, iv, text));
    stored := combined[..];
  }

  /** `decrypt`: split the buffer and open the ciphertext; None when opening fails (a tampered, truncated or foreign buffer). */
  function Decrypt(open: Open, stored: seq<byte>): (r: Option<string>)
    ensures DataOffset <= |stored| ==>
              r == open(stored[..SaltLength], stored[SaltLength..DataOffset], stored[DataOffset..])
  {
    var p := Split(stored);
    open(p.salt, p.iv, p.data)
  }

  /** Round trip: what `encrypt` stores, `decrypt` turns back into the name. */
  lemma DecryptEncrypt(seal: Seal, open: Open, salt: seq<byte>, iv: seq<byte>, text: string)
    requires Inverts(seal, open)
    requires |salt| == SaltLength && |iv| == IvLength
    ensures Decrypt(open, Sealed(seal, salt, iv, text)) == Some(text)
  {
    SplitLayout(salt, iv, seal(salt, iv, text));
  }

  /** Two encryptions under different salts are different bytes, whatever the name: encryption is not deterministic. */
  lemma SaltsDistinguish(seal: Seal, s1: seq<byte>, iv1: seq<byte>, s2: seq<byte>, iv2: seq<byte>, text: string)
    requires |s1| == SaltLength && |iv1| == IvLength && |s2| == SaltLength && |iv2| == IvLength
    requires s1 != s2
    ensures Sealed(seal, s1, iv1, text) != Sealed(seal, s2, iv2, text)
  {
    SplitLayout(s1, iv1, seal(s1, iv1, text));
    SplitLayout(s2, iv2, seal(s2, iv2, text));
  }

  /** A record of the `assignments` collection as stored: the encrypted giver and receiver. */
  datatype StoredAssignment = StoredAssignment(giver: seq<byte>, receiver: seq<byte>)

  /** What `revealChit` writes: giver and receiver are encrypted by two calls, each with its own salt and IV. */
  function EncodeAssignment(seal: Seal, a: Assignment, giverSalt: seq<byte>, giverIv: seq<byte>,
                            receiverSalt: seq<byte>, receiverIv: seq<byte>): (r: StoredAssignment)
    ensures |giverSalt| == SaltLength && |giverIv| == IvLength ==>
              Split(r.giver).salt == giverSalt && Split(r.giver).iv == giverIv
    ensures |receiverSalt| == SaltLength && |receiverIv| == IvLength ==>
              Split(r.receiver).salt == receiverSalt && Split(r.receiver).iv == receiverIv
  {
    StoredAssignment(Sealed(seal, giverSalt, giverIv, a.giver), Sealed(seal, receiverSalt, receiverIv, a.receiver))
  }

  function DecodeAssignment(open: Open, r: StoredAssignment): Option<Assignment> {
    match (Decrypt(open, r.giver), Decrypt(open, r.receiver))
    case (Some(g), Some(v)) => Some(Assignment(g, v))
    case _ => None
  }

  /** A stored record decodes to the (giver, receiver) pair it was written for: the ledger can be read as names. */
  lemma DecodeEncodeAssignment(seal: Seal, open: Open, a: Assignment, giverSalt: seq<byte>, giverIv: seq<byte>,
                               receiverSalt: seq<byte>, receiverIv: seq<byte>)
    requires Inverts(seal, open)
    requires |giverSalt| == SaltLength && |giverIv| == IvLength
    requires |receiverSalt| == SaltLength && |receiverIv| == IvLength
    ensures DecodeAssignment(open, EncodeAssignment(seal, a, giverSalt, giverIv, receiverSalt, receiverIv)) == Some(a)
  {
    DecryptEncrypt(seal, open, giverSalt, giverIv, a.giver);
    DecryptEncrypt(seal, open, receiverSalt, receiverIv, a.receiver);
  }

  /**
    The giver lookup as written: `where('giver', '==', encryptedGiver)`, the stored
    records whose giver bytes equal the probe, which is the giver's name encrypted
    afresh with a new random salt and IV.
   */
  function QueryByCiphertext(stored: seq<StoredAssignment>, probe: seq<byte>): (hits: seq<StoredAssignment>)
    ensures forall r :: r in hits <==> r in stored && r.giver == probe
  {
    var keep := (r: StoredAssignment) => r.giver == probe;
    assert forall r :: r in Seqs.Filter(stored, keep) <==> r in stored && keep(r) by {
      forall r ensures r in Seqs.Filter(stored, keep) <==> r in stored && keep(r) {
        Seqs.FilterMembers(stored, keep, r);
      }
    }
    Seqs.Filter(stored, keep)
  }

  /**
    The query as written finds nothing once the fresh salt differs from the salt of
    every stored giver, which random 16-byte salts do but for a chance of about 2^-128
    per record.
   */
  lemma FreshSaltQueryMisses(seal: Seal, stored: seq<StoredAssignment>, salt: seq<byte>, iv: seq<byte>, name: string)
    requires |salt| == SaltLength && |iv| == IvLength
    requires forall i :: 0 <= i < |stored| ==> Split(stored[i].giver).salt != salt
    ensures QueryByCiphertext(stored, Sealed(seal, salt, iv, name)) == []
  {
    var probe := Sealed(seal, salt, iv, name);
    var hits := QueryByCiphertext(stored, probe);
    SplitLayout(salt, iv, seal(salt, iv, name));
    Seqs.FilterKeepsNone(stored, (r: StoredAssignment) => r.giver == probe);
  }

  /**
    A giver who has drawn comes back: the ledger holds their record, the intended lookup
    by name finds it, and the query as written, probing with a new salt, does not.
   */
  lemma ReturningGiverIsMissed(seal: Seal, open: Open, a: Assignment,
                               giverSalt: seq<byte>, giverIv: seq<byte>, receiverSalt: seq<byte>, receiverIv: seq<byte>,
                               probeSalt: seq<byte>, probeIv: seq<byte>)
    requires Inverts(seal, open)
    requires |giverSalt| == SaltLength && |giverIv| == IvLength
    requires |receiverSalt| == SaltLength && |receiverIv| == IvLength
    requires |probeSalt| == SaltLength && |probeIv| == IvLength
    requires probeSalt != giverSalt
    ensures DecodeAssignment(open, EncodeAssignment(seal, a, giverSalt, giverIv, receiverSalt, receiverIv)) == Some(a)
    ensures FindGiver([a], a.giver) == Some(0)
    ensures QueryByCiphertext([EncodeAssignment(seal, a, giverSalt, giverIv, receiverSalt, receiverIv)],
                              Sealed(seal, probeSalt, probeIv, a.giver)) == []
  {
    DecodeEncodeAssignment(seal, open, a, giverSalt, giverIv, receiverSalt, receiverIv);
    var stored := [EncodeAssignment(seal, a, giverSalt, giverIv, receiverSalt, receiverIv)];
    SplitLayout(giverSalt, giverIv, seal(giverSalt, giverIv, a.giver));
    FreshSaltQueryMisses(seal, stored, probeSalt, probeIv, a.giver);
  }
}
