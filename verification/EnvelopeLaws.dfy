/**
  The at-rest envelope in terms of the keyed function alone (distil/atrest.py, `encrypt_bytes`,
  `decrypt_bytes` and `_load_key`): which bytes stand where, and what one key makes of another's.
*/
module EnvelopeLaws {
  import opened Wrappers
  import opened BigEndian
  import opened AtRest

  // ---------------------------------------------------------------- the bytes

  /** A number below 2 to the 32 as four bytes, the most significant first. */
  function Counter(n: nat): (s: Bytes)
    ensures |s| == 4
  {
    [n / 0x100_0000 % 0x100, n / 0x1_0000 % 0x100, n / 0x100 % 0x100, n % 0x100]
  }

  lemma CounterIs(n: nat)
    ensures FromInt(n, 4) == Counter(n)
  {
    assert FromInt(n, 4) == FromInt(n / 256, 3) + [n % 256];
    assert FromInt(n / 256, 3) == FromInt(n / 256 / 256, 2) + [n / 256 % 256];
    assert FromInt(n / 256 / 256, 2) == FromInt(n / 256 / 256 / 256, 1) + [n / 256 / 256 % 256];
    assert FromInt(n / 256 / 256 / 256, 1) == [n / 256 / 256 / 256 % 256];
    assert n / 256 / 256 == n / 0x1_0000 && n / 256 / 256 / 256 == n / 0x100_0000;
  }

  /** The key of the tag and that of the stream, each made of the master key and a label. */
  function TagKey(hmac: Hmac, master: Key): Digest {
    hmac(master, [109, 97, 99])
  }

  function StreamKey(hmac: Hmac, master: Key): Digest {
    hmac(master, [101, 110, 99])
  }

  /** Byte i of the stream. */
  function StreamAt(hmac: Hmac, master: Key, nonce: Nonce, i: nat): Byte {
    hmac(StreamKey(hmac, master), nonce + Counter(i / 32))[i % 32]
  }

  lemma StreamAtIs(hmac: Hmac, master: Key, nonce: Nonce, i: nat)
    ensures StreamByte(hmac, Derive(hmac, master, LABEL_ENC), nonce, i) == StreamAt(hmac, master, nonce, i)
  {
    CounterIs(i / 32);
  }

  /** What an envelope consists of: magic, nonce, each data byte combined with its stream byte, and the
      tag of nonce and ciphertext. */
  ghost predicate IsEnvelope(hmac: Hmac, master: Key, nonce: Nonce, data: Bytes, e: Bytes) {
    && |e| == |data| + 53 && e[..5] == [68, 83, 84, 76, 49] && e[5..21] == nonce
    && (forall i :: 0 <= i < |data| ==> e[21 + i] == XorByte(data[i], StreamAt(hmac, master, nonce, i)))
    && e[|e| - 32..] == hmac(TagKey(hmac, master), e[5..|e| - 32])
  }

  lemma EnvelopeLayout(hmac: Hmac, master: Key, nonce: Nonce, data: Bytes, ct: Bytes, tag: Digest, e: Bytes)
    requires e == MAGIC + nonce + ct + tag && |ct| == |data|
    ensures |e| == |data| + 53 && e[..5] == [68, 83, 84, 76, 49] && e[5..21] == nonce
    ensures e[21..|e| - 32] == ct && e[5..|e| - 32] == nonce + ct && e[|e| - 32..] == tag
  {
  }

  /** For every key, nonce and data: the envelope is those bytes and no others. */
  lemma EnvelopeIs(hmac: Hmac, master: Key, nonce: Nonce, data: Bytes)
    ensures IsEnvelope(hmac, master, nonce, data, Envelope(hmac, master, nonce, data))
  {
    var key := Derive(hmac, master, LABEL_ENC);
    var ct, e := XorStream(hmac, key, nonce, data), Envelope(hmac, master, nonce, data);
    EnvelopeLayout(hmac, master, nonce, data, ct, hmac(Derive(hmac, master, LABEL_MAC), nonce + ct), e);
    XorStreamIsBytewise(hmac, key, nonce, data);
    forall i | 0 <= i < |data| ensures e[21 + i] == XorByte(data[i], StreamAt(hmac, master, nonce, i)) {
      StreamAtIs(hmac, master, nonce, i);
      assert e[21 + i] == e[21..|e| - 32][i];
    }
  }

  lemma EnvelopeUnique(hmac: Hmac, master: Key, nonce: Nonce, data: Bytes, e: Bytes, f: Bytes)
    requires IsEnvelope(hmac, master, nonce, data, e) && IsEnvelope(hmac, master, nonce, data, f)
    ensures e == f
  {
    var n := |e| - 32;
    forall i | 0 <= i < n ensures e[i] == f[i] {
      if i < 5 {
        assert e[i] == e[..5][i] && f[i] == f[..5][i];
      } else if i < 21 {
        assert e[i] == e[5..21][i - 5] && f[i] == f[5..21][i - 5];
      } else {
        var k := i - 21;
        assert e[21 + k] == XorByte(data[k], StreamAt(hmac, master, nonce, k)) == f[21 + k];
      }
    }
    assert e[5..n] == f[5..n];
    assert e == e[..n] + e[n..] && f == f[..n] + f[n..];
  }

  /** Encryption is refused above 128 GiB, where the block counter no longer fits its four bytes, and
      otherwise gives the one envelope there is. */
  lemma EncryptIs(hmac: Hmac, master: Key, nonce: Nonce, data: Bytes, e: Bytes)
    ensures Encrypt(hmac, master, nonce, data) == Plain(e) <==>
            |data| <= 0x20_0000_0000 && IsEnvelope(hmac, master, nonce, data, e)
  {
    CountersFitIff(|data|);
    EnvelopeIs(hmac, master, nonce, data);
    if IsEnvelope(hmac, master, nonce, data, e) {
      EnvelopeUnique(hmac, master, nonce, data, e, Envelope(hmac, master, nonce, data));
    }
  }

  // ---------------------------------------------------------------- under a key

  /** A headered input is accepted as the data exactly when it is an envelope of the data under the key. */
  lemma DecryptIs(hmac: Hmac, master: Key, e: Bytes, data: Bytes)
    requires [68, 83, 84, 76, 49] <= e
    ensures Decrypt(hmac, master, e) == Plain(data) <==>
            |data| <= 0x20_0000_0000 && exists nonce: Nonce :: IsEnvelope(hmac, master, nonce, data, e)
  {
    AcceptedIff(hmac, master, e, data);
    if nonce: Nonce :| Encrypt(hmac, master, nonce, data) == Plain(e) {
      EncryptIs(hmac, master, nonce, data, e);
    }
    if nonce: Nonce :| |data| <= 0x20_0000_0000 && IsEnvelope(hmac, master, nonce, data, e) {
      EncryptIs(hmac, master, nonce, data, e);
    }
  }

  /** Any headered input whose last 32 bytes are not the tag of what stands before them is nothing. */
  lemma WrongTagIsMissing(hmac: Hmac, master: Key, e: Bytes)
    requires [68, 83, 84, 76, 49] <= e
    requires |e| >= 53 ==> e[|e| - 32..] != hmac(TagKey(hmac, master), e[5..|e| - 32])
    ensures Decrypt(hmac, master, e) == Missing
  {
    if |e| >= 53 {
      var body := e[5..];
      assert body[|body| - 32..] == e[|e| - 32..];
      assert body[..16] + body[16..|body| - 32] == e[5..|e| - 32];
    }
  }

  /** One key's envelope is nothing under another key whenever the two give it different tags. */
  lemma ForeignEnvelopeIsMissing(hmac: Hmac, first: Key, second: Key, nonce: Nonce, data: Bytes, e: Bytes)
    requires IsEnvelope(hmac, first, nonce, data, e)
    requires hmac(hmac(first, [109, 97, 99]), e[5..|e| - 32]) != hmac(hmac(second, [109, 97, 99]), e[5..|e| - 32])
    ensures Decrypt(hmac, second, e) == Missing
  {
    WrongTagIsMissing(hmac, second, e);
  }

  /** The keyed function tells keys apart: different keys never give one message the same digest. */
  ghost predicate TellsKeysApart(hmac: Hmac) {
    forall k: Key, l: Key, m: Bytes :: k != l ==> hmac(k, m) != hmac(l, m)
  }

  /** Then what one key accepts no other key accepts. */
  lemma NoForeignKey(hmac: Hmac, first: Key, second: Key, e: Bytes)
    requires TellsKeysApart(hmac) && first != second
    requires [68, 83, 84, 76, 49] <= e && Decrypt(hmac, first, e).Plain?
    ensures Decrypt(hmac, second, e) == Missing
  {
    var data := Decrypt(hmac, first, e).data;
    DecryptIs(hmac, first, e, data);
    var nonce: Nonce :| IsEnvelope(hmac, first, nonce, data, e);
    var k: Key, l: Key := TagKey(hmac, first), TagKey(hmac, second);
    assert k != l;
    ForeignEnvelopeIsMissing(hmac, first, second, nonce, data, e);
  }

  /** A key is told apart by every message: for instance where the digest is the key. */
  lemma SomeTellKeysApart()
    ensures TellsKeysApart((k: Bytes, m: Bytes) => if |k| == 32 then k else seq(32, _ => 0))
  {
  }

  // ---------------------------------------------------------------- the key in use

  /** A valid key file is used as it is; otherwise a key is generated, and it is found again exactly when
      the file can be written and then read. */
  lemma KeyIsFoundAgainIff(d: Disk, first: Key, second: Key)
    requires first != second
    ensures d.readable && d.contents.Some? && |d.contents.value| == 32 ==>
      LoadedKey(d, first) == d.contents.value && AfterLoad(d, first) == d
    ensures !(d.readable && d.contents.Some? && |d.contents.value| == 32) ==>
      && LoadedKey(d, first) == first
      && AfterLoad(d, first) == (if d.writable then d.(contents := Some(first)) else d)
      && (LoadedKey(AfterLoad(d, first), second) == first <==> d.readable && d.writable)
  {
  }

  /** Written and read back under keys that are told apart: the data comes back exactly when the key
      file was valid or can be written and read, and otherwise nothing does. */
  lemma RoundTripNeedsKey(hmac: Hmac, d: Disk, first: Key, second: Key, nonce: Nonce, data: Bytes)
    requires TellsKeysApart(hmac) && first != second && |data| <= 0x20_0000_0000
    ensures Decrypt(hmac, LoadedKey(AfterLoad(d, first), second), Envelope(hmac, LoadedKey(d, first), nonce, data)) ==
      if d.readable && (d.writable || (d.contents.Some? && |d.contents.value| == 32)) then Plain(data) else Missing
  {
    CountersFitIff(|data|);
    RoundTripIs(hmac, d, first, second, nonce, data);
    if !Persists(d) {
      var e := Envelope(hmac, first, nonce, data);
      DecryptEncrypt(hmac, first, nonce, data);
      EnvelopeIs(hmac, first, nonce, data);
      NoForeignKey(hmac, first, second, e);
    }
  }
}
