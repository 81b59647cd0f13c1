/**
  The at-rest envelope (distil/atrest.py): a counter-mode keystream in the shape of section 6.5 of
  NIST SP 800-38A over a keyed function with 32-byte output (HMAC, section 2 of RFC 2104), then a
  tag over nonce and ciphertext.  The keyed function itself is given.
*/
module AtRest {
  import opened Wrappers
  import opened BigEndian

  const MAC_LEN := 32
  const NONCE_LEN := 16
  const KEY_LEN := 32
  const MAGIC: Bytes := [68, 83, 84, 76, 49]
  const LABEL_ENC: Bytes := [101, 110, 99]
  const LABEL_MAC: Bytes := [109, 97, 99]
  const COUNTER_LIMIT := 0x1_0000_0000

  type Digest = s: Bytes | |s| == 32 witness seq(32, _ => 0)

  type Key = s: Bytes | |s| == 32 witness seq(32, _ => 0)

  type Nonce = s: Bytes | |s| == 16 witness seq(16, _ => 0)

  type Hmac = (Bytes, Bytes) -> Digest

  /** A value; nothing usable (truncated or not authentic); or a counter that does not fit four bytes. */
  datatype Outcome = Plain(data: Bytes) | Missing | CounterOverflow

  function Derive(hmac: Hmac, master: Key, purpose: Bytes): Digest {
    hmac(master, purpose)
  }

  function Blocks(n: nat): nat {
    (n + MAC_LEN - 1) / MAC_LEN
  }

  /** The first n keystream blocks, joined. */
  function Keystream(hmac: Hmac, key: Bytes, nonce: Nonce, n: nat): (ks: Bytes)
    ensures |ks| == MAC_LEN * n
  {
    if n == 0 then []
    else Keystream(hmac, key, nonce, n - 1) + hmac(key, nonce + FromInt(n - 1, 4))
  }

  /** None of the counters below Blocks(n) overflows four bytes. */
  predicate CountersFit(n: nat) {
    Blocks(n) <= COUNTER_LIMIT
  }

  /** The stream as computed: whole keystream, cut, one big-integer operation. */
  function XorStream(hmac: Hmac, key: Bytes, nonce: Nonce, data: Bytes): (r: Bytes)
    ensures |r| == |data|
  {
    if data == [] then []
    else XorAsInt(data, Keystream(hmac, key, nonce, Blocks(|data|))[..|data|])
  }

  /** Byte i of the stream, as a specification: block i / 32 of the counter-mode keystream. */
  function StreamByte(hmac: Hmac, key: Bytes, nonce: Nonce, i: nat): Byte {
    hmac(key, nonce + FromInt(i / MAC_LEN, 4))[i % MAC_LEN]
  }

  function Envelope(hmac: Hmac, master: Key, nonce: Nonce, data: Bytes): Bytes {
    var ciphertext := XorStream(hmac, Derive(hmac, master, LABEL_ENC), nonce, data);
    MAGIC + nonce + ciphertext + hmac(Derive(hmac, master, LABEL_MAC), nonce + ciphertext)
  }

  function Encrypt(hmac: Hmac, master: Key, nonce: Nonce, data: Bytes): Outcome {
    if CountersFit(|data|) then Plain(Envelope(hmac, master, nonce, data)) else CounterOverflow
  }

  function Decrypt(hmac: Hmac, master: Key, data: Bytes): Outcome {
    if !(MAGIC <= data) then Plain(data)
    else if |data| < |MAGIC| + NONCE_LEN + MAC_LEN then Missing
    else
      var body := data[|MAGIC|..];
      var nonce: Nonce, tag := body[..NONCE_LEN], body[|body| - MAC_LEN..];
      var ciphertext := body[NONCE_LEN..|body| - MAC_LEN];
      if tag != hmac(Derive(hmac, master, LABEL_MAC), nonce + ciphertext) then Missing
      else if !CountersFit(|ciphertext|) then CounterOverflow
      else Plain(XorStream(hmac, Derive(hmac, master, LABEL_ENC), nonce, ciphertext))
  }

  // ---------------------------------------------------------------- the stream

  lemma {:induction false} KeystreamAt(hmac: Hmac, key: Bytes, nonce: Nonce, n: nat, i: nat)
    requires i < MAC_LEN * n
    ensures Keystream(hmac, key, nonce, n)[i] == StreamByte(hmac, key, nonce, i)
  {
    if i >= MAC_LEN * (n - 1) {
    } else {
      KeystreamAt(hmac, key, nonce, n - 1, i);
    }
  }

  /** The optimised stream is the bytewise exclusive or with the counter-mode keystream. */
  lemma XorStreamIsBytewise(hmac: Hmac, key: Bytes, nonce: Nonce, data: Bytes)
    ensures forall i :: 0 <= i < |data| ==>
      XorStream(hmac, key, nonce, data)[i] == XorByte(data[i], StreamByte(hmac, key, nonce, i))
  {
    if data != [] {
      var ks := Keystream(hmac, key, nonce, Blocks(|data|));
      XorAsIntIsBytewise(data, ks[..|data|]);
      forall i | 0 <= i < |data| ensures ks[..|data|][i] == StreamByte(hmac, key, nonce, i) {
        KeystreamAt(hmac, key, nonce, Blocks(|data|), i);
      }
    }
  }

  lemma XorStreamInvolution(hmac: Hmac, key: Bytes, nonce: Nonce, data: Bytes)
    ensures XorStream(hmac, key, nonce, XorStream(hmac, key, nonce, data)) == data
  {
    StreamsCancelIff(hmac, key, key, nonce, data);
  }

  /** Under one nonce the ciphertext of a prefix is the prefix of the ciphertext. */
  lemma XorStreamOfPrefix(hmac: Hmac, key: Bytes, nonce: Nonce, data: Bytes, n: nat)
    requires n <= |data|
    ensures XorStream(hmac, key, nonce, data[..n]) == XorStream(hmac, key, nonce, data)[..n]
  {
    XorStreamIsBytewise(hmac, key, nonce, data);
    XorStreamIsBytewise(hmac, key, nonce, data[..n]);
  }

  /** The stream exists exactly up to 128 GiB: one byte more needs counter 2 to the 32. */
  lemma CountersFitIff(n: nat)
    ensures CountersFit(n) <==> n <= 0x20_0000_0000
  {
  }

  // ---------------------------------------------------------------- the envelope

  lemma EnvelopeParts(hmac: Hmac, master: Key, nonce: Nonce, data: Bytes)
    ensures var e := Envelope(hmac, master, nonce, data);
      var ct := XorStream(hmac, Derive(hmac, master, LABEL_ENC), nonce, data);
      && |e| == |data| + 53 && MAGIC <= e
      && e[5..][..16] == nonce
      && e[5..][16..|e| - 37] == ct
      && e[5..][|e| - 37..] == hmac(Derive(hmac, master, LABEL_MAC), nonce + ct)
  {
    var ct := XorStream(hmac, Derive(hmac, master, LABEL_ENC), nonce, data);
    var tag := hmac(Derive(hmac, master, LABEL_MAC), nonce + ct);
    var e := Envelope(hmac, master, nonce, data);
    assert e == MAGIC + (nonce + (ct + tag));
    assert e[5..] == nonce + (ct + tag);
  }

  /** Decryption undoes encryption, for every plaintext, empty and headered ones included. */
  lemma DecryptEncrypt(hmac: Hmac, master: Key, nonce: Nonce, data: Bytes)
    requires CountersFit(|data|)
    ensures Decrypt(hmac, master, Envelope(hmac, master, nonce, data)) == Plain(data)
    ensures |Envelope(hmac, master, nonce, data)| == |data| + 53
  {
    EnvelopeParts(hmac, master, nonce, data);
    XorStreamInvolution(hmac, Derive(hmac, master, LABEL_ENC), nonce, data);
  }

  /** A headered input that decrypts is the envelope of what it decrypts to, under the nonce it carries. */
  lemma DecryptedWasEncrypted(hmac: Hmac, master: Key, e: Bytes)
    requires MAGIC <= e && Decrypt(hmac, master, e).Plain?
    ensures |e| >= 53
    ensures Encrypt(hmac, master, e[5..21], Decrypt(hmac, master, e).data) == Plain(e)
  {
    var body := e[5..];
    var nonce: Nonce, ct := body[..16], body[16..|body| - 32];
    var key := Derive(hmac, master, LABEL_ENC);
    XorStreamInvolution(hmac, key, nonce, ct);
    assert e[5..21] == nonce;
    assert e == MAGIC + nonce + ct + body[|body| - 32..];
  }

  /** Accepted envelopes are exactly the encryptor's outputs. */
  lemma AcceptedIff(hmac: Hmac, master: Key, e: Bytes, data: Bytes)
    requires MAGIC <= e
    ensures Decrypt(hmac, master, e) == Plain(data) <==>
            exists nonce: Nonce :: Encrypt(hmac, master, nonce, data) == Plain(e)
  {
    if Decrypt(hmac, master, e) == Plain(data) {
      DecryptedWasEncrypted(hmac, master, e);
    }
    if exists nonce: Nonce :: Encrypt(hmac, master, nonce, data) == Plain(e) {
      var nonce: Nonce :| Encrypt(hmac, master, nonce, data) == Plain(e);
      DecryptEncrypt(hmac, master, nonce, data);
    }
  }

  /** An envelope determines its nonce and its plaintext. */
  lemma EnvelopeInjective(hmac: Hmac, master: Key, n1: Nonce, d1: Bytes, n2: Nonce, d2: Bytes)
    requires CountersFit(|d1|) && CountersFit(|d2|)
    requires Envelope(hmac, master, n1, d1) == Envelope(hmac, master, n2, d2)
    ensures n1 == n2 && d1 == d2
  {
    EnvelopeParts(hmac, master, n1, d1);
    EnvelopeParts(hmac, master, n2, d2);
    DecryptEncrypt(hmac, master, n1, d1);
    DecryptEncrypt(hmac, master, n2, d2);
  }

  /** Input written with encryption switched off reads back unchanged iff it does not begin like an envelope. */
  lemma UnencryptedReadsBackIff(hmac: Hmac, master: Key, data: Bytes)
    ensures Decrypt(hmac, master, data) == Plain(data) <==> !(MAGIC <= data)
  {
  }

  // ---------------------------------------------------------------- the key file

  /** The key file as the process sees it: what a read would find, and whether reads and writes work. */
  datatype Disk = Disk(contents: Option<Bytes>, readable: bool, writable: bool)

  /** The stored key, when it can be read and has the right length. */
  function StoredKey(d: Disk): Option<Key> {
    if d.readable && d.contents.Some? && |d.contents.value| == KEY_LEN then Some(d.contents.value) else None
  }

  function LoadedKey(d: Disk, generated: Key): Key {
    if StoredKey(d).Some? then StoredKey(d).value else generated
  }

  function AfterLoad(d: Disk, generated: Key): Disk {
    if StoredKey(d).Some? || !d.writable then d else d.(contents := Some(generated))
  }

  class KeyFile {
    var disk: Disk

    constructor (d: Disk)
      ensures disk == d
    {
      disk := d;
    }

    /** The stored key, or a newly generated one that is written back if the disk allows it. */
    method LoadKey(generated: Key) returns (key: Key)
      modifies this
      ensures key == LoadedKey(old(disk), generated)
      ensures disk == AfterLoad(old(disk), generated)
    {
      if disk.readable && disk.contents.Some? && |disk.contents.value| == KEY_LEN {
        return disk.contents.value;
      }
      key := generated;
      if disk.writable {
        disk := disk.(contents := Some(key));
      }
    }

    method EncryptBytes(hmac: Hmac, off: bool, generated: Key, nonce: Nonce, data: Bytes) returns (r: Outcome)
      modifies this
      ensures off ==> r == Plain(data) && disk == old(disk)
      ensures !off ==> r == Encrypt(hmac, LoadedKey(old(disk), generated), nonce, data)
                       && disk == AfterLoad(old(disk), generated)
    {
      if off {
        return Plain(data);
      }
      var master := LoadKey(generated);
      r := Encrypt(hmac, master, nonce, data);
    }

    /** The key is only loaded for headered input long enough to hold a nonce and a tag. */
    method DecryptBytes(hmac: Hmac, generated: Key, data: Bytes) returns (r: Outcome)
      modifies this
      ensures r == Decrypt(hmac, LoadedKey(old(disk), generated), data)
      ensures disk == if MAGIC <= data && |data| >= 53 then AfterLoad(old(disk), generated) else old(disk)
    {
      if !(MAGIC <= data) {
        return Plain(data);
      }
      if |data| < |MAGIC| + NONCE_LEN + MAC_LEN {
        return Missing;
      }
      var master := LoadKey(generated);
      r := Decrypt(hmac, master, data);
    }

    /** Write and read back in one process; the key generator may be asked twice. */
    method RoundTrip(hmac: Hmac, first: Key, second: Key, nonce: Nonce, data: Bytes) returns (r: Outcome)
      requires CountersFit(|data|)
      modifies this
      ensures Persists(old(disk)) || first == second ==> r == Plain(data)
      ensures !Persists(old(disk)) && TagsDiffer(hmac, first, second, nonce, data) ==> r == Missing
      ensures r == Plain(data) <==> Persists(old(disk)) || Confuses(hmac, first, second, nonce, data)
    {
      ghost var d := disk;
      var e := EncryptBytes(hmac, false, first, nonce, data);
      r := DecryptBytes(hmac, second, e.data);
      RoundTripIs(hmac, d, first, second, nonce, data);
      RoundTripIff(hmac, d, first, second, nonce, data);
    }
  }

  /** The key used for writing is found again: it was stored already, or the new one can be stored. */
  predicate Persists(d: Disk) {
    StoredKey(d).Some? || (d.readable && d.writable)
  }

  /** The ciphertext that the first key makes of the data. */
  function CiphertextOf(hmac: Hmac, first: Key, nonce: Nonce, data: Bytes): Bytes {
    XorStream(hmac, Derive(hmac, first, LABEL_ENC), nonce, data)
  }

  /** The two keys give this one nonce and ciphertext different tags. */
  predicate TagsDiffer(hmac: Hmac, first: Key, second: Key, nonce: Nonce, data: Bytes) {
    var m := nonce + CiphertextOf(hmac, first, nonce, data);
    hmac(Derive(hmac, first, LABEL_MAC), m) != hmac(Derive(hmac, second, LABEL_MAC), m)
  }

  /** The two keys cannot be told apart on this message: they give it the same tag, and the same key
      stream as far as it reaches. */
  predicate Confuses(hmac: Hmac, first: Key, second: Key, nonce: Nonce, data: Bytes) {
    !TagsDiffer(hmac, first, second, nonce, data) &&
    forall i :: 0 <= i < |data| ==>
      StreamByte(hmac, Derive(hmac, first, LABEL_ENC), nonce, i) ==
      StreamByte(hmac, Derive(hmac, second, LABEL_ENC), nonce, i)
  }

  /** What a round trip through a disk gives back, in every case: the data when the key persists;
      with a key that cannot be kept nothing, or, should the second key happen to give the same tag,
      what its key stream makes of the ciphertext. */
  lemma RoundTripIs(hmac: Hmac, d: Disk, first: Key, second: Key, nonce: Nonce, data: Bytes)
    requires CountersFit(|data|)
    ensures var e := Envelope(hmac, LoadedKey(d, first), nonce, data);
      Decrypt(hmac, LoadedKey(AfterLoad(d, first), second), e) ==
      if Persists(d) then Plain(data)
      else if TagsDiffer(hmac, first, second, nonce, data) then Missing
      else Plain(XorStream(hmac, Derive(hmac, second, LABEL_ENC), nonce, CiphertextOf(hmac, first, nonce, data)))
  {
    EnvelopeParts(hmac, LoadedKey(d, first), nonce, data);
    if Persists(d) {
      DecryptEncrypt(hmac, LoadedKey(d, first), nonce, data);
    }
  }

  lemma XorCancelsIff(a: Byte, x: Byte, y: Byte)
    ensures XorByte(XorByte(a, x), y) == a <==> x == y
  {
    XorInvolution(a, x);
    XorInvolution(a, y);
    XorDetermines(XorByte(a, x), x, y);
  }

  /** Two streams undo each other exactly when they agree as far as the data reaches. */
  lemma StreamsCancelIff(hmac: Hmac, k1: Bytes, k2: Bytes, nonce: Nonce, data: Bytes)
    ensures XorStream(hmac, k2, nonce, XorStream(hmac, k1, nonce, data)) == data <==>
            forall i :: 0 <= i < |data| ==> StreamByte(hmac, k1, nonce, i) == StreamByte(hmac, k2, nonce, i)
  {
    var ct := XorStream(hmac, k1, nonce, data);
    var back := XorStream(hmac, k2, nonce, ct);
    XorStreamIsBytewise(hmac, k1, nonce, data);
    XorStreamIsBytewise(hmac, k2, nonce, ct);
    forall i | 0 <= i < |data|
      ensures back[i] == data[i] <==> StreamByte(hmac, k1, nonce, i) == StreamByte(hmac, k2, nonce, i)
    {
      XorCancelsIff(data[i], StreamByte(hmac, k1, nonce, i), StreamByte(hmac, k2, nonce, i));
    }
    assert back == data <==> forall i :: 0 <= i < |data| ==> back[i] == data[i];
  }

  /** Data written and read back comes back exactly when the key persists, or when the two generated
      keys, equal ones among them, cannot be told apart on this message. */
  lemma RoundTripIff(hmac: Hmac, d: Disk, first: Key, second: Key, nonce: Nonce, data: Bytes)
    requires CountersFit(|data|)
    ensures var e := Envelope(hmac, LoadedKey(d, first), nonce, data);
      Decrypt(hmac, LoadedKey(AfterLoad(d, first), second), e) == Plain(data) <==>
      Persists(d) || Confuses(hmac, first, second, nonce, data)
    ensures first == second ==> Confuses(hmac, first, second, nonce, data)
  {
    RoundTripIs(hmac, d, first, second, nonce, data);
    StreamsCancelIff(hmac, Derive(hmac, first, LABEL_ENC), Derive(hmac, second, LABEL_ENC), nonce, data);
  }
}
