// Encryption to text and back: AES-128 over zero-padded blocks, in Base64.
module Crypt {
  import opened Common
  import opened Aes
  import opened AesCipher
  import opened AesExample
  import Base64
  import opened Bytes

  // Filled up with zeros to whole blocks.
  function Padded(m: seq<Byte>): (p: seq<Byte>)
    ensures Whole(p) && m <= p
  {
    m + Repeat(0, RoundedUp(|m|) - |m|)
  }

  function EncryptText(key: Block, m: seq<Byte>): seq<Byte> {
    Base64.Encoded(EncryptBlocks(Padded(m), Schedule(key)))
  }

  // Nothing if the text is not Base64 or does not stand for whole blocks.
  function DecryptText(key: Block, t: seq<Byte>): Option<seq<Byte>> {
    match Base64.Decoded(t)
    case None => None
    case Some(d) => if Whole(d) then Some(DecryptBlocks(d, Schedule(key))) else None
  }

  // Decrypting what was encrypted gives the message, filled up with zeros.
  lemma RoundTrip(key: Block, m: seq<Byte>)
    ensures DecryptText(key, EncryptText(key, m)) == Some(Padded(m))
  {
    hide Padded, Schedule, Base64.Encoded, Base64.Decoded, EncryptBlocks, DecryptBlocks;
    var e := EncryptBlocks(Padded(m), Schedule(key));
    assert Whole(e);
    Base64.RoundTrip(e);
    BlocksBack(Padded(m), Schedule(key));
  }

  // The example of appendix C.1 of FIPS 197: a message of one block.
  lemma Example()
    ensures EncryptText(KEY, PLAINTEXT) == Base64.Encoded(CIPHERTEXT)
  {
    hide Schedule, Base64.Encoded, Encrypt;
    Encrypts();
    assert Padded(PLAINTEXT) == PLAINTEXT && PLAINTEXT[..16] == PLAINTEXT && PLAINTEXT[16..] == [];
    assert EncryptBlocks(PLAINTEXT, Schedule(KEY)) == CIPHERTEXT + [] == CIPHERTEXT;
  }

  // ztl_aes_encrypt
  method AesEncrypt(key: Block, rawdata: seq<Byte>, encryptdata: array<Byte>) returns (encryptlen: nat)
    requires |rawdata| <= 4000 && Base64.EncodedLength(RoundedUp(|rawdata|)) < encryptdata.Length
    modifies encryptdata
    ensures encryptlen == |EncryptText(key, rawdata)| < encryptdata.Length
    ensures encryptdata[..encryptlen] == EncryptText(key, rawdata) && encryptdata[encryptlen] == 0
  {
    hide Schedule, Base64.Encoded, EncryptBlocks, Holds, Repeat, Padded, RoundedUp, Extent;
    var w := KeyExpansion(key);
    var lraw := Raw(rawdata);
    var rawlen := |rawdata|;
    Copied(lraw[..], rawdata);
    ghost var p := lraw[..];
    CipherWithLength(w, lraw, rawlen, Schedule(key));
    RoundedNext(rawlen);
    if rawlen % 16 != 0 {
      rawlen := (rawlen / 16 + 1) * 16;
    }
    Text(key, rawdata, lraw[..], p);
    encryptlen := Base64.Encode(lraw[..rawlen], encryptdata);
  }

  // The local buffer, with the message at its start.
  method Raw(rawdata: seq<Byte>) returns (lraw: array<Byte>)
    requires |rawdata| <= 4000
    ensures fresh(lraw) && lraw.Length == 4000 && lraw[..] == rawdata + Repeat(0, 4000 - |rawdata|)
  {
    lraw := new Byte[4000](_ => 0);
    for i := 0 to |rawdata|
      invariant forall k :: 0 <= k < i ==> lraw[k] == rawdata[k]
      invariant forall k :: i <= k < 4000 ==> lraw[k] == 0
      modifies lraw
    {
      lraw[i] := rawdata[i];
    }
  }

  lemma RoundedNext(n: nat)
    ensures RoundedUp(n) == if n % 16 != 0 then (n / 16 + 1) * 16 else n
  {
  }

  // What is encoded: the encrypted blocks, or nothing of an empty message.
  lemma Text(key: Block, m: seq<Byte>, s: seq<Byte>, p: seq<Byte>)
    requires |m| <= 4000 == |s| && p == m + Repeat(0, 4000 - |m|)
    requires var n := RoundedUp(Extent(p, |m|)); n <= 4000 && s[..n] == EncryptBlocks(p[..n], Schedule(key))
    ensures RoundedUp(|m|) <= 4000 && Base64.Encoded(s[..RoundedUp(|m|)]) == EncryptText(key, m)
    ensures |EncryptText(key, m)| == Base64.EncodedLength(RoundedUp(|m|))
  {
    hide Schedule, Base64.CharOf, RoundedUp, Extent;
    Copied(p, m);
    RoundedNext(|m|);
  }

  lemma Copied(s: seq<Byte>, m: seq<Byte>)
    requires |m| <= 4000 && s == m + Repeat(0, 4000 - |m|)
    ensures RoundedUp(|m|) <= 4000 && RoundedUp(Extent(s, |m|)) <= 4000
    ensures s[..RoundedUp(|m|)] == Padded(m) && (|m| > 0 ==> Extent(s, |m|) == |m|)
  {
    RoundedNext(|m|);
  }

  // ztl_aes_decrypt: if the text does not decode, the length is what the caller had in rawlen.
  method AesDecrypt(key: Block, encryptdata: seq<Byte>, rawdata: array<Byte>, rawlen0: nat) returns (rawlen: nat)
    requires 3 * (|encryptdata| / 4) <= rawdata.Length
    requires var d := Base64.Decoded(encryptdata); RoundedUp(if d.Some? then |d.value| else rawlen0) <= rawdata.Length
    modifies rawdata
    ensures Base64.Decoded(encryptdata).None? ==> rawlen == rawlen0
    ensures DecryptText(key, encryptdata).Some? ==>
      rawlen <= rawdata.Length && Some(rawdata[..rawlen]) == DecryptText(key, encryptdata)
  {
    hide Schedule, Base64.Decoded, DecryptBlocks, Holds, RoundedUp;
    var decoded := Base64.Decode(encryptdata, rawdata);
    rawlen := if decoded.Some? then decoded.value else rawlen0;
    var w := KeyExpansion(key);
    ghost var d := rawdata[..RoundedUp(rawlen)];
    RoundedIs(rawlen, rawlen);
    InvCipherWithLength(w, rawdata, rawlen, Schedule(key));
  }
}
