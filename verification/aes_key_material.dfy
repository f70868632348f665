/** Symmetric key material handed out with a lease: a 32-byte AES key, a
    16-byte IV, their hex and Base64 transcriptions, and the SRT passphrase
    derived from the key. */
module AesKeyMaterial {
  import opened Wrappers
  import opened Encoding
  import Text

  const KeySize: nat := 32
  const IvSize: nat := 16

  /** Length of an SRT passphrase derived from a key. */
  const PassphraseLength: nat := 32

  datatype KeyMaterial = KeyMaterial(key: seq<byte>, iv: seq<byte>) {
    function ToHexKey(): string { ToHex(key) }
    function ToHexIv(): string { ToHex(iv) }
    function ToBase64Key(): string { ToBase64(key) }
    function ToBase64Iv(): string { ToBase64(iv) }
    function ToPassphrase(): string { DerivePassphrase(key) }
  }

  /** `AesKeyMaterial.Create`: the key is the first 32 bytes drawn from the
      random source and the IV the next 16. */
  function Create(random: seq<byte>): (m: KeyMaterial)
    requires |random| >= KeySize + IvSize
    ensures |m.key| == KeySize && |m.iv| == IvSize
    ensures random[..KeySize + IvSize] == m.key + m.iv
  {
    KeyMaterial(random[..KeySize], random[KeySize..KeySize + IvSize])
  }

  /** `AesKeyMaterial.FromHex`; `None` when either string is not hex. */
  function FromHexStrings(keyHex: string, ivHex: string): Option<KeyMaterial> {
    match (FromHex(keyHex), FromHex(ivHex))
    case (Some(k), Some(v)) => Some(KeyMaterial(k, v))
    case _ => None
  }

  /** `AesKeyMaterial.FromBase64`; `None` when either string is not Base64. */
  function FromBase64Strings(keyBase64: string, ivBase64: string): Option<KeyMaterial> {
    match (FromBase64(keyBase64), FromBase64(ivBase64))
    case (Some(k), Some(v)) => Some(KeyMaterial(k, v))
    case _ => None
  }

  /** `AesKeyMaterial.DerivePassphrase`: the upper-case hex of the key cut or
      right-padded with '0' to 32 characters. */
  function DerivePassphrase(key: seq<byte>): (r: string)
    ensures |r| == PassphraseLength
    ensures IsHexString(r)
    ensures |key| >= 16 ==> r == ToHex(key[..16])
    ensures |key| < 16 ==> r[..2 * |key|] == ToHex(key)
    ensures forall i :: 2 * |key| <= i < |r| ==> r[i] == '0'
  {
    var hex := ToHex(key);
    if |hex| >= PassphraseLength then
      ToHexAppend(key[..16], key[16..]);
      assert key[..16] + key[16..] == key;
      hex[..PassphraseLength]
    else
      Text.PadRight(hex, PassphraseLength, '0')
  }

  /** The passphrase of a key of at least 16 bytes depends on nothing but the
      first 16 bytes, so two keys agreeing there share a passphrase. */
  lemma PassphraseDependsOnPrefix(k1: seq<byte>, k2: seq<byte>)
    requires |k1| >= 16 && |k2| >= 16
    ensures DerivePassphrase(k1) == DerivePassphrase(k2) <==> k1[..16] == k2[..16]
  {
    FromHexToHex(k1[..16]);
    FromHexToHex(k2[..16]);
  }

  /** Decoding the passphrase of a long key recovers the key's first 16 bytes;
      for a short key it recovers the key followed by zero bytes. */
  lemma PassphraseDecodes(key: seq<byte>)
    ensures |key| >= 16 ==> FromHex(DerivePassphrase(key)) == Some(key[..16])
    ensures |key| < 16 ==> FromHex(DerivePassphrase(key)) == Some(key + seq(16 - |key|, _ => 0 as byte))
  {
    if |key| >= 16 {
      FromHexToHex(key[..16]);
    } else {
      var zeros: seq<byte> := seq(16 - |key|, _ => 0 as byte);
      var r := DerivePassphrase(key);
      ZerosHex(16 - |key|);
      ToHexAppend(key, zeros);
      assert r == ToHex(key) + ToHex(zeros);
      FromHexToHex(key + zeros);
    }
  }

  lemma {:induction false} ZerosHex(n: nat)
    ensures ToHex(seq(n, _ => 0 as byte)) == Text.Repeat('0', 2 * n)
    decreases n
  {
    if n > 0 {
      var z: seq<byte> := seq(n, _ => 0 as byte);
      assert z[1..] == seq(n - 1, _ => 0 as byte);
      ZerosHex(n - 1);
    }
  }

  /** `ToPassphrase` of freshly created material is the hex of the first half
      of the key. */
  lemma CreatedPassphrase(random: seq<byte>)
    requires |random| >= KeySize + IvSize
    ensures Create(random).ToPassphrase() == ToHex(random[..16])
  {
    assert Create(random).key[..16] == random[..16];
  }

  /** `FromHex(ToHexKey(), ToHexIv())` reproduces the material. */
  lemma HexRoundTrip(m: KeyMaterial)
    ensures FromHexStrings(m.ToHexKey(), m.ToHexIv()) == Some(m)
  {
    FromHexToHex(m.key);
    FromHexToHex(m.iv);
  }

  /** `FromBase64(ToBase64Key(), ToBase64Iv())` reproduces the material. */
  lemma Base64RoundTrip(m: KeyMaterial)
    ensures FromBase64Strings(m.ToBase64Key(), m.ToBase64Iv()) == Some(m)
  {
    FromBase64ToBase64(m.key);
    FromBase64ToBase64(m.iv);
  }
}
