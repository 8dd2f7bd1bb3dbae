/** Encryption of the private key under a password (wallet_crypto.c:87-273 and 392-455). */
module Wallet {
  import opened Bits
  import opened Bytes
  import opened Hmac
  import opened Wrappers

  const BLOB_VERSION: Byte := 1
  const SALT: nat := 16
  const NONCE: nat := 12
  const MAC: nat := 32
  const KEY: nat := 64
  const BLOB: nat := 1 + SALT + NONCE + KEY + MAC

  const INFO: nat := 16 + NONCE

  const ITERATIONS: nat := 200000

  const LABEL_ENC: seq<Byte> := [0x45, 0x4e, 0x43]
  const LABEL_MAC: seq<Byte> := [0x4d, 0x41, 0x43]

  // -------------------------------------------------------------------------------------------
  // What a blob is
  // -------------------------------------------------------------------------------------------

  function MasterKey(password: seq<Byte>, salt: seq<Byte>): (k: seq<Byte>)
    requires |password| < MAX_LENGTH && |salt| == SALT
    ensures |k| == DIGEST
  {
    DerivedKey(password, salt, ITERATIONS, DIGEST)
  }

  function StreamKey(master: seq<Byte>, nonce: seq<Byte>, tag: seq<Byte>): (k: seq<Byte>)
    requires |master| == DIGEST && |nonce| <= NONCE && |tag| <= INFO
    ensures |k| == DIGEST
  {
    Mac(master, tag + nonce)
  }

  /** The authentication tag of a nonce and a ciphertext. */
  function Tag(master: seq<Byte>, nonce: seq<Byte>, cipher: seq<Byte>): (t: seq<Byte>)
    requires |master| == DIGEST && |nonce| == NONCE && |cipher| == KEY
    ensures |t| == MAC
  {
    Mac(StreamKey(master, nonce, LABEL_MAC), nonce + cipher)[..MAC]
  }

  /** The private key under the key stream, or back. */
  function Masked(master: seq<Byte>, nonce: seq<Byte>, text: seq<Byte>): (t: seq<Byte>)
    requires |master| == DIGEST && |nonce| == NONCE && |text| == KEY
    ensures |t| == KEY
  {
    XorBytes(text, StreamKey(master, nonce, LABEL_ENC))
  }

  lemma MaskedTwice(master: seq<Byte>, nonce: seq<Byte>, text: seq<Byte>)
    requires |master| == DIGEST && |nonce| == NONCE && |text| == KEY
    ensures Masked(master, nonce, Masked(master, nonce, text)) == text
  {
    XorTwice(text, StreamKey(master, nonce, LABEL_ENC));
  }

  function BlobOf(master: seq<Byte>, salt: seq<Byte>, nonce: seq<Byte>, cipher: seq<Byte>): (b: seq<Byte>)
    requires |master| == DIGEST && |salt| == SALT && |nonce| == NONCE && |cipher| == KEY
    ensures |b| == BLOB
  {
    [BLOB_VERSION] + salt + nonce + cipher + Tag(master, nonce, cipher)
  }

  /** What encryption makes of a private key. */
  function Sealed(password: seq<Byte>, salt: seq<Byte>, nonce: seq<Byte>, key: seq<Byte>): (b: seq<Byte>)
    requires |password| < MAX_LENGTH && |salt| == SALT && |nonce| == NONCE && |key| == KEY
    ensures |b| == BLOB
  {
    var master := MasterKey(password, salt);
    BlobOf(master, salt, nonce, Masked(master, nonce, key))
  }

  /** The version, the salt, the nonce, the masked key, and the tag of nonce and masked key. */
  lemma SealedIs(password: seq<Byte>, salt: seq<Byte>, nonce: seq<Byte>, key: seq<Byte>)
    requires |password| < MAX_LENGTH && |salt| == 16 && |nonce| == 12 && |key| == 64
    ensures var master := DerivedKey(password, salt, 200000, 64);
            var cipher := XorBytes(key, Mac(master, Ascii("ENC") + nonce));
            var tag := Mac(Mac(master, Ascii("MAC") + nonce), nonce + cipher)[..32];
            Sealed(password, salt, nonce, key) == [1] + salt + nonce + cipher + tag
  {
    hide DerivedKey, Mac, XorBytes;
    Labels();
  }

  /** The codes of a text. */
  function Ascii(s: string): (b: seq<Byte>)
    ensures |b| == |s|
  {
    seq(|s|, i requires 0 <= i < |s| => s[i] as int % 128)
  }

  lemma Labels()
    ensures LABEL_ENC == Ascii("ENC") && LABEL_MAC == Ascii("MAC")
  {
  }

  function SaltOf(blob: seq<Byte>): (s: seq<Byte>)
    requires |blob| >= BLOB
    ensures |s| == SALT
  {
    blob[1..17]
  }

  function NonceOf(blob: seq<Byte>): (s: seq<Byte>)
    requires |blob| >= BLOB
    ensures |s| == NONCE
  {
    blob[17..29]
  }

  function CipherOf(blob: seq<Byte>): (s: seq<Byte>)
    requires |blob| >= BLOB
    ensures |s| == KEY
  {
    blob[29..93]
  }

  function TagOf(blob: seq<Byte>): (s: seq<Byte>)
    requires |blob| >= BLOB
    ensures |s| == MAC
  {
    blob[93..125]
  }

  /** What decryption makes of a blob. */
  function Opened(password: seq<Byte>, blob: seq<Byte>): Option<seq<Byte>>
    requires |password| < MAX_LENGTH && |blob| >= BLOB
  {
    var master := MasterKey(password, SaltOf(blob));
    if blob[0] != BLOB_VERSION || TagOf(blob) != Tag(master, NonceOf(blob), CipherOf(blob)) then None
    else Some(Masked(master, NonceOf(blob), CipherOf(blob)))
  }

  lemma BlobParts(master: seq<Byte>, salt: seq<Byte>, nonce: seq<Byte>, cipher: seq<Byte>, blob: seq<Byte>)
    requires |master| == DIGEST && |salt| == SALT && |nonce| == NONCE && |cipher| == KEY && |blob| >= BLOB
    ensures blob[..BLOB] == BlobOf(master, salt, nonce, cipher) <==>
              blob[0] == BLOB_VERSION && SaltOf(blob) == salt && NonceOf(blob) == nonce && CipherOf(blob) == cipher
              && TagOf(blob) == Tag(master, nonce, cipher)
  {
    hide Tag;
    var b := blob[..BLOB];
    assert b[1..17] == SaltOf(blob) && b[17..29] == NonceOf(blob) && b[29..93] == CipherOf(blob)
        && b[93..] == TagOf(blob);
    assert b == [b[0]] + b[1..17] + b[17..29] + b[29..93] + b[93..];
    var w := BlobOf(master, salt, nonce, cipher);
    assert w[0] == BLOB_VERSION && w[1..17] == salt && w[17..29] == nonce && w[29..93] == cipher;
    assert w[93..] == Tag(master, nonce, cipher);
  }

  /** A blob opens to a key exactly when its first 125 bytes are that key, sealed with its salt and nonce.
      So decryption undoes encryption, and nothing else is accepted. */
  lemma OpensSealed(password: seq<Byte>, blob: seq<Byte>, key: seq<Byte>)
    requires |password| < MAX_LENGTH && |blob| >= BLOB && |key| == KEY
    ensures Opened(password, blob) == Some(key) <==>
              blob[..BLOB] == Sealed(password, SaltOf(blob), NonceOf(blob), key)
  {
    hide MasterKey, Masked, Tag, BlobOf;
    var salt, nonce, cipher := SaltOf(blob), NonceOf(blob), CipherOf(blob);
    var master := MasterKey(password, salt);
    BlobParts(master, salt, nonce, Masked(master, nonce, key), blob);
    MaskedTwice(master, nonce, key);
    MaskedTwice(master, nonce, cipher);
  }

  lemma OpenSealed(password: seq<Byte>, salt: seq<Byte>, nonce: seq<Byte>, key: seq<Byte>)
    requires |password| < MAX_LENGTH && |salt| == SALT && |nonce| == NONCE && |key| == KEY
    ensures Opened(password, Sealed(password, salt, nonce, key)) == Some(key)
  {
    hide MasterKey, Masked, Tag, BlobOf, Opened;
    var master := MasterKey(password, salt);
    var blob := Sealed(password, salt, nonce, key);
    assert blob[..BLOB] == blob;
    BlobParts(master, salt, nonce, Masked(master, nonce, key), blob);
    OpensSealed(password, blob, key);
  }

  // -------------------------------------------------------------------------------------------
  // The helpers
  // -------------------------------------------------------------------------------------------

  /** A label is cut to the size of the buffer that takes label and nonce. */
  function Label(tag: seq<Byte>): (l: seq<Byte>)
    ensures |l| <= INFO && (|tag| <= INFO ==> l == tag)
  {
    if |tag| > INFO then tag[..INFO] else tag
  }

  /** derive_stream_key: nothing for a nonce that is too long, else up to 64 bytes.  Label and nonce must
      fit their buffer. */
  method DeriveStreamKey(master: seq<Byte>, nonce: seq<Byte>, tag: seq<Byte>, derived: array<Byte>, length: nat)
    requires |master| == DIGEST && length <= derived.Length
    requires |nonce| <= NONCE ==> |Label(tag)| + |nonce| <= INFO
    modifies derived
    ensures |nonce| > NONCE ==> derived[..] == old(derived[..])
    ensures |nonce| <= NONCE ==>
              var n := if length > DIGEST then DIGEST else length;
              derived[..n] == StreamKey(master, nonce, Label(tag))[..n] && derived[n..] == old(derived[n..])
  {
    hide Mac;
    if |nonce| > NONCE {
      return;
    }
    var info := new Byte[INFO](_ => 0);
    var text := Label(tag);
    Store(info, 0, text + nonce);
    assert info[..|text| + |nonce|] == text + nonce;
    var digest := new Byte[64](_ => 0);
    HmacSha512(master, info, |text| + |nonce|, digest);
    var count := length;
    if count > DIGEST {
      count := DIGEST;
    }
    Store(derived, 0, digest[..count]);
    assert digest[..DIGEST][..count] == digest[..count];
  }

  /** constant_time_compare: zero for equal strings. */
  method ConstantTimeCompare(a: seq<Byte>, b: seq<Byte>, length: nat) returns (different: int)
    requires length <= |a| && length <= |b|
    ensures different == if a[..length] == b[..length] then 0 else 1
  {
    var diff := 0;
    for i := 0 to length
      invariant diff == 0 <==> a[..i] == b[..i]
    {
      XorEqual(a[i], b[i]);
      OrZero(diff, Xor(a[i], b[i]));
      assert a[..i + 1] == a[..i] + [a[i]] && b[..i + 1] == b[..i] + [b[i]];
      diff := Or(diff, Xor(a[i], b[i]));
    }
    different := if diff != 0 then 1 else 0;
  }

  /** The nonce and the ciphertext under the MAC key, cut to 32 bytes by the callers. */
  method MacOf(master: seq<Byte>, nonce: seq<Byte>, cipher: seq<Byte>) returns (mac: array<Byte>)
    requires |master| == DIGEST && |nonce| == NONCE && |cipher| == KEY
    ensures fresh(mac) && mac.Length == DIGEST && mac[..MAC] == Tag(master, nonce, cipher)
  {
    hide Mac;
    var macKey := new Byte[64](_ => 0);
    DeriveStreamKey(master, nonce, LABEL_MAC, macKey, 64);
    assert macKey[..64] == StreamKey(master, nonce, LABEL_MAC);
    var authInput := new Byte[76](_ => 0);
    Store(authInput, 0, nonce + cipher);
    assert authInput[..76] == nonce + cipher;
    mac := new Byte[64](_ => 0);
    HmacSha512(macKey[..64], authInput, 76, mac);
    assert mac[..DIGEST][..MAC] == mac[..MAC];
  }

  /** The loop that masks the private key. */
  method Mask(master: seq<Byte>, nonce: seq<Byte>, text: seq<Byte>, out: array<Byte>)
    requires |master| == DIGEST && |nonce| == NONCE && |text| == KEY && out.Length == KEY
    modifies out
    ensures out[..] == Masked(master, nonce, text)
  {
    hide StreamKey;
    var keystream := new Byte[64](_ => 0);
    DeriveStreamKey(master, nonce, LABEL_ENC, keystream, 64);
    assert keystream[..64] == keystream[..] == StreamKey(master, nonce, LABEL_ENC);
    for i := 0 to KEY
      invariant keystream[..] == StreamKey(master, nonce, LABEL_ENC)
      invariant forall k :: 0 <= k < i ==> out[k] == XorByte(text[k], keystream[k])
    {
      out[i] := XorByte(text[i], keystream[i]);
    }
  }

  // -------------------------------------------------------------------------------------------
  // Encryption and decryption
  // -------------------------------------------------------------------------------------------

  /** wallet_encrypt_private_key.  The salt, the nonce and whether they could be drawn are inputs. */
  method Encrypt(password: seq<Byte>, privateKey: seq<Byte>, salt: seq<Byte>, nonce: seq<Byte>, saltDrawn: bool,
                 nonceDrawn: bool, out: array<Byte>)
    returns (status: Status)
    requires |password| < MAX_LENGTH && |salt| == SALT && |nonce| == NONCE
    modifies out
    ensures status == AppOk <==> |privateKey| == KEY && out.Length >= BLOB && password != [] && saltDrawn && nonceDrawn
    ensures status != AppOk ==> status == AppErrIo && out[..] == old(out[..])
    ensures status == AppOk ==>
              out[..BLOB] == Sealed(password, salt, nonce, privateKey) && out[BLOB..] == old(out[BLOB..])
  {
    hide Masked, Tag, DerivedKey;
    status := AppErrIo;
    if |privateKey| == KEY && out.Length >= BLOB && |password| > 0 && saltDrawn && nonceDrawn {
      var master := new Byte[64](_ => 0);
      status := Pbkdf2(password, salt, ITERATIONS, master, 64);
      ghost var m := MasterKey(password, salt);
      assert master[..64] == m;
      var cipher := new Byte[64](_ => 0);
      Mask(master[..64], nonce, privateKey, cipher);
      var mac := MacOf(master[..64], nonce, cipher[..]);
      Store(out, 0, [BLOB_VERSION] + salt + nonce + cipher[..] + mac[..MAC]);
      assert out[..BLOB] == BlobOf(m, salt, nonce, cipher[..]);
    }
  }

  /** wallet_decrypt_private_key: the key of a blob that opens; otherwise zeros. */
  method Decrypt(password: seq<Byte>, blob: seq<Byte>, out: array<Byte>) returns (status: Status)
    requires |password| < MAX_LENGTH
    modifies out
    ensures var inputs := |blob| >= BLOB && out.Length == KEY && password != [];
            && (status == AppErrIo <==> !inputs)
            && (inputs && Opened(password, blob).Some? ==> status == AppOk && out[..] == Opened(password, blob).value)
            && (inputs && Opened(password, blob).None? ==> status == AppErrCrypto)
            && (status != AppOk && out.Length == KEY ==> out[..] == seq(KEY, _ => 0))
            && (out.Length != KEY ==> out[..] == old(out[..]))
  {
    hide Masked, Tag, DerivedKey;
    status := AppErrIo;
    if |blob| >= BLOB && out.Length == KEY && |password| > 0 {
      if blob[0] == BLOB_VERSION {
        var salt, nonce, cipher, mac := blob[1..17], blob[17..29], blob[29..93], blob[93..];
        var master := new Byte[64](_ => 0);
        status := Pbkdf2(password, salt, ITERATIONS, master, 64);
        assert master[..64] == MasterKey(password, SaltOf(blob));
        var macFull := MacOf(master[..64], nonce, cipher);
        var mismatch := ConstantTimeCompare(mac, macFull[..], MAC);
        assert mac[..MAC] == TagOf(blob) && macFull[..][..MAC] == macFull[..MAC];
        if mismatch == 0 {
          Mask(master[..64], nonce, cipher, out);
          status := AppOk;
        } else {
          status := AppErrCrypto;
        }
      } else {
        status := AppErrCrypto;
      }
    }
    if status != AppOk && out.Length == KEY {
      forall i | 0 <= i < out.Length {
        out[i] := 0;
      }
    }
  }
}
