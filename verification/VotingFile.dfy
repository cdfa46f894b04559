/** The binary key-tree file of a voting key: writing it into one buffer, and reading it back. */
module VotingFile {
  import opened Basics
  import opened VotingKeys

  type Byte = b: int | 0 <= b < 256

  type Key = s: seq<Byte> | |s| == 32 witness seq(32, _ => 0)

  type Signature = s: seq<Byte> | |s| == 64 witness seq(64, _ => 0)

  /** The signature scheme: only the sizes of its results matter here. */
  datatype Crypto = Crypto(publicKey: Key -> Key, sign: (Key, seq<Byte>) -> Signature)

  const HEADER_SIZE := 64 + 16
  const ITEM_SIZE := 32 + 64
  const FRESH_ID: seq<Byte> := [0xFF, 0xFF, 0xFF, 0xFF, 0xFF, 0xFF, 0xFF, 0xFF]

  // ----- numbers as little-endian bytes, bytes as upper-case hexadecimal -----

  function ToBytes(n: nat, size: nat): (r: seq<Byte>)
    ensures |r| == size
  {
    if size == 0 then [] else [n % 256] + ToBytes(n / 256, size - 1)
  }

  function FromBytes(s: seq<Byte>): nat {
    if |s| == 0 then 0 else s[0] + 256 * FromBytes(s[1..])
  }

  function Pow256(size: nat): nat {
    if size == 0 then 1 else 256 * Pow256(size - 1)
  }

  lemma {:induction false} BytesRoundTrip(n: nat, size: nat)
    requires n < Pow256(size)
    ensures FromBytes(ToBytes(n, size)) == n
  {
    if size != 0 {
      BytesRoundTrip(n / 256, size - 1);
      assert ToBytes(n, size)[1..] == ToBytes(n / 256, size - 1);
    }
  }

  function EpochBytes(epoch: nat): (r: seq<Byte>)
    ensures |r| == 8
  {
    ToBytes(epoch, 8)
  }

  lemma {:induction false} EpochRoundTrip(epoch: nat)
    requires epoch <= MAX_SAFE_INTEGER
    ensures FromBytes(EpochBytes(epoch)) == epoch
  {
    assert Pow256(8) == 256 * (256 * (256 * (256 * (256 * (256 * (256 * (256 * 1))))))) by {
      assert Pow256(2) == 256 * (256 * 1);
      assert Pow256(4) == 256 * (256 * Pow256(2));
      assert Pow256(6) == 256 * (256 * Pow256(4));
    }
    BytesRoundTrip(epoch, 8);
  }

  /** Numbers stand in a file with their lowest byte first. */
  lemma {:induction false} LowestByteFirst(b: seq<Byte>)
    requires |b| == 8
    ensures var n: seq<int> := seq(8, i requires 0 <= i < 8 => b[i] as int);
      FromBytes(b) == n[0] + 0x100 * n[1] + 0x1_0000 * n[2] + 0x100_0000 * n[3] + 0x1_0000_0000 * n[4]
                    + 0x100_0000_0000 * n[5] + 0x1_0000_0000_0000 * n[6] + 0x100_0000_0000_0000 * n[7]
  {
    hide FromBytes;
    NextByte(b, 0);
    NextByte(b, 1);
    NextByte(b, 2);
    NextByte(b, 3);
    NextByte(b, 4);
    NextByte(b, 5);
    NextByte(b, 6);
    NextByte(b, 7);
    assert b[0..] == b;
  }

  lemma NextByte(b: seq<Byte>, i: nat)
    requires i < |b|
    ensures FromBytes(b[i..]) == b[i] + 256 * FromBytes(b[i + 1..])
    ensures i + 1 == |b| ==> FromBytes(b[i + 1..]) == 0
  {
    assert b[i..][1..] == b[i + 1..];
  }

  function HexDigit(d: int): char
    requires 0 <= d < 16
  {
    if d < 10 then '0' + (d as char) else 'A' + ((d - 10) as char)
  }

  function ToHex(s: seq<Byte>): string {
    if |s| == 0 then [] else [HexDigit(s[0] / 16), HexDigit(s[0] % 16)] + ToHex(s[1..])
  }

  /** Two digits for each byte, the higher one first, in capital letters. */
  lemma {:induction false} HexDigits(s: seq<Byte>, i: nat)
    requires i < |s|
    ensures |ToHex(s)| == 2 * |s|
    ensures ToHex(s)[2 * i] == "0123456789ABCDEF"[s[i] / 16] && ToHex(s)[2 * i + 1] == "0123456789ABCDEF"[s[i] % 16]
  {
    if |s| > 1 {
      HexDigits(s[1..], if i == 0 then 0 else i - 1);
    }
    HexDigitIs(s[i] / 16);
    HexDigitIs(s[i] % 16);
  }

  lemma HexDigitIs(d: int)
    requires 0 <= d < 16
    ensures HexDigit(d) == "0123456789ABCDEF"[d]
  {
  }

  /** Different bytes are written differently, also for a reader that ignores case. */
  lemma {:induction false} HexIsInjective(a: seq<Byte>, b: seq<Byte>)
    requires |a| == |b| && Upper(ToHex(a)) == Upper(ToHex(b))
    ensures a == b
  {
    if |a| != 0 {
      var x, y := ToHex(a), ToHex(b);
      assert x[2..] == ToHex(a[1..]) && y[2..] == ToHex(b[1..]);
      assert Upper(x)[0] == Upper(y)[0] && Upper(x)[1] == Upper(y)[1];
      assert Upper(x)[2..] == Upper(x[2..]) && Upper(y)[2..] == Upper(y[2..]);
      HexIsInjective(a[1..], b[1..]);
      assert a[0] == 16 * (a[0] / 16) + a[0] % 16 && b[0] == 16 * (b[0] / 16) + b[0] % 16;
      assert a == [a[0]] + a[1..] && b == [b[0]] + b[1..];
    }
  }

  // ----- the contents of a file -----

  function Header(startEpoch: nat, endEpoch: nat, rootPublicKey: Key): (r: seq<Byte>)
    ensures |r| == HEADER_SIZE
  {
    EpochBytes(startEpoch) + EpochBytes(endEpoch) + FRESH_ID + FRESH_ID + rootPublicKey
    + EpochBytes(startEpoch) + EpochBytes(endEpoch)
  }

  /** One bound key: a private key, and the root signature over its public key and its epoch. */
  function Record(c: Crypto, root: Key, privateKey: Key, epoch: nat): (r: seq<Byte>)
    ensures |r| == ITEM_SIZE
  {
    privateKey + c.sign(root, c.publicKey(privateKey) + EpochBytes(epoch))
  }

  predicate AllKeys(keys: seq<seq<Byte>>, n: nat)
    requires n <= |keys|
  {
    forall i | 0 <= i < n :: |keys[i]| == 32
  }

  /** The first `n` records: epochs run backwards from the last one. */
  function Records(c: Crypto, root: Key, endEpoch: nat, keys: seq<seq<Byte>>, n: nat): (r: seq<Byte>)
    requires n <= |keys| && n <= endEpoch + 1 && AllKeys(keys, n)
    ensures |r| == n * ITEM_SIZE
  {
    if n == 0 then []
    else Records(c, root, endEpoch, keys, n - 1) + Record(c, root, keys[n - 1], endEpoch - (n - 1))
  }

  ghost predicate Writable(startEpoch: nat, endEpoch: nat, keys: seq<seq<Byte>>) {
    startEpoch <= endEpoch + 1 && endEpoch - startEpoch + 1 <= |keys| && AllKeys(keys, endEpoch - startEpoch + 1)
  }

  ghost function FileBytes(c: Crypto, root: Key, startEpoch: nat, endEpoch: nat, keys: seq<seq<Byte>>): (r: seq<Byte>)
    requires Writable(startEpoch, endEpoch, keys)
    ensures |r| == HEADER_SIZE + ITEM_SIZE * (endEpoch - startEpoch + 1)
  {
    Header(startEpoch, endEpoch, c.publicKey(root)) + Records(c, root, endEpoch, keys, endEpoch - startEpoch + 1)
  }

  // ----- writing -----

  /** Copies `value` into the buffer at `index` and returns the index behind it. */
  method Insert(result: array<Byte>, value: seq<Byte>, index: nat) returns (next: nat)
    requires index + |value| <= result.Length
    modifies result
    ensures next == index + |value|
    ensures result[..next] == old(result[..index]) + value
    ensures result[next..] == old(result[next..])
  {
    forall i | 0 <= i < |value| {
      result[index + i] := value[i];
    }
    next := index + |value|;
  }

  /** Writes a whole key tree. The buffer is filled exactly: the index ends at its length. `keys` are
      the private keys drawn, one for each epoch. */
  method CreateVotingFile(c: Crypto, secret: Key, startEpoch: nat, endEpoch: nat, keys: seq<seq<Byte>>)
    returns (r: Result<array<Byte>>)
    requires endEpoch - startEpoch + 1 <= |keys|
    ensures r.Ok? <==> Writable(startEpoch, endEpoch, keys)
    ensures r.Ok? ==> fresh(r.value) && r.value[..] == FileBytes(c, secret, startEpoch, endEpoch, keys)
  {
    hide Header, Record;
    var items := endEpoch - startEpoch + 1;
    var totalSize := HEADER_SIZE + items * ITEM_SIZE;
    if totalSize < 0 {
      return Err("Invalid typed array length");
    }
    var result := new Byte[totalSize](_ => 0);
    var index := WriteHeader(c, secret, startEpoch, endEpoch, result);
    for i := 0 to items
      invariant AllKeys(keys, i)
      invariant index == HEADER_SIZE + i * ITEM_SIZE
      invariant result[..index]
          == Header(startEpoch, endEpoch, c.publicKey(secret)) + Records(c, secret, endEpoch, keys, i)
    {
      var randomPrivateKey := keys[i];
      if |randomPrivateKey| != 32 {
        return Err("Invalid private key size");
      }
      index := WriteRecord(c, secret, randomPrivateKey, endEpoch - i, result, index);
      assert keys[i] == randomPrivateKey;
    }
    assert index == result.Length;
    assert result[..] == result[..index];
    r := Ok(result);
  }

  method WriteHeader(c: Crypto, secret: Key, startEpoch: nat, endEpoch: nat, result: array<Byte>) returns (index: nat)
    requires HEADER_SIZE <= result.Length
    modifies result
    ensures index == HEADER_SIZE
    ensures result[..index] == Header(startEpoch, endEpoch, c.publicKey(secret))
  {
    hide EpochBytes;
    index := 0;
    index := Insert(result, EpochBytes(startEpoch), index);
    index := Insert(result, EpochBytes(endEpoch), index);
    index := Insert(result, FRESH_ID, index);
    index := Insert(result, FRESH_ID, index);
    index := Insert(result, c.publicKey(secret), index);
    index := Insert(result, EpochBytes(startEpoch), index);
    index := Insert(result, EpochBytes(endEpoch), index);
  }

  method WriteRecord(c: Crypto, secret: Key, privateKey: Key, epoch: nat, result: array<Byte>, index: nat)
    returns (next: nat)
    requires index + ITEM_SIZE <= result.Length
    modifies result
    ensures next == index + ITEM_SIZE
    ensures result[..next] == old(result[..index]) + Record(c, secret, privateKey, epoch)
  {
    var middle := Insert(result, privateKey, index);
    var identifier := EpochBytes(epoch);
    var signature := c.sign(secret, c.publicKey(privateKey) + identifier);
    next := Insert(result, signature, middle);
  }

  // ----- reading -----

  /** `slice` of a typed array: bounds past the end are cut off. */
  function Slice(file: seq<Byte>, from: nat, to: nat): seq<Byte>
    requires from <= to
  {
    file[(if from < |file| then from else |file|)..(if to < |file| then to else |file|)]
  }

  function ReadVotingFile(file: seq<Byte>): Result<VotingKey> {
    var startEpoch := FromBytes(Slice(file, 0, 8));
    var endEpoch := FromBytes(Slice(file, 8, 16));
    var totalSize := HEADER_SIZE + (endEpoch - startEpoch + 1) * ITEM_SIZE;
    if |file| != totalSize then Err("Unexpected voting key file")
    else Ok(VotingKey(ToHex(Slice(file, 32, 64)), startEpoch, endEpoch))
  }

  /** The record of each epoch: at 96 bytes per epoch counted back from the last one stand its private
      key and the root signature over its public key and the eight bytes of the epoch. */
  lemma {:induction false} RecordOfEpoch(c: Crypto, root: Key, startEpoch: nat, endEpoch: nat, keys: seq<seq<Byte>>,
                                         epoch: nat)
    requires Writable(startEpoch, endEpoch, keys) && startEpoch <= epoch <= endEpoch
    ensures var file := FileBytes(c, root, startEpoch, endEpoch, keys);
      var at := HEADER_SIZE + ITEM_SIZE * (endEpoch - epoch);
      && at + ITEM_SIZE <= |file|
      && file[at..at + 32] == keys[endEpoch - epoch]
      && file[at + 32..at + ITEM_SIZE] == c.sign(root, c.publicKey(file[at..at + 32]) + EpochBytes(epoch))
  {
    hide Header, Records;
    var n := endEpoch - epoch;
    var header := Header(startEpoch, endEpoch, c.publicKey(root));
    var records := Records(c, root, endEpoch, keys, endEpoch - startEpoch + 1);
    RecordAt(c, root, endEpoch, keys, endEpoch - startEpoch + 1, n);
    var at := ITEM_SIZE * n;
    var record := Record(c, root, keys[n], epoch);
    SliceBehind(header, records, at, at + ITEM_SIZE);
    SubSlice(header + records, HEADER_SIZE + at, ITEM_SIZE, 0, 32);
    SubSlice(header + records, HEADER_SIZE + at, ITEM_SIZE, 32, ITEM_SIZE);
    assert record[0..32] == keys[n];
  }

  lemma SliceBehind(a: seq<Byte>, b: seq<Byte>, from: nat, to: nat)
    requires from <= to <= |b|
    ensures (a + b)[|a| + from..|a| + to] == b[from..to]
  {
  }

  lemma SubSlice(s: seq<Byte>, at: nat, size: nat, from: nat, to: nat)
    requires at + size <= |s| && from <= to <= size
    ensures s[at..at + size][from..to] == s[at + from..at + to]
  {
    var item := s[at..at + size];
    forall i | 0 <= i < to - from
      ensures item[from..to][i] == s[at + from..at + to][i]
    {
      assert item[from..to][i] == item[from + i];
    }
  }

  lemma {:induction false} RecordAt(c: Crypto, root: Key, endEpoch: nat, keys: seq<seq<Byte>>, n: nat, i: nat)
    requires n <= |keys| && n <= endEpoch + 1 && AllKeys(keys, n) && i < n
    ensures var records := Records(c, root, endEpoch, keys, n);
      && i * ITEM_SIZE + ITEM_SIZE <= |records|
      && records[i * ITEM_SIZE..i * ITEM_SIZE + ITEM_SIZE] == Record(c, root, keys[i], endEpoch - i)
  {
    if i < n - 1 {
      RecordAt(c, root, endEpoch, keys, n - 1, i);
      var shorter := Records(c, root, endEpoch, keys, n - 1);
      var last := Record(c, root, keys[n - 1], endEpoch - (n - 1));
      assert (shorter + last)[i * ITEM_SIZE..i * ITEM_SIZE + ITEM_SIZE]
          == shorter[i * ITEM_SIZE..i * ITEM_SIZE + ITEM_SIZE];
    }
  }

  lemma HeaderFields(startEpoch: nat, endEpoch: nat, rootPublicKey: Key)
    ensures var h := Header(startEpoch, endEpoch, rootPublicKey);
      h[..8] == EpochBytes(startEpoch) && h[8..16] == EpochBytes(endEpoch) && h[32..64] == rootPublicKey
  {
  }

  /** The header of a written file, field by field: the epochs, sixteen bytes for the two identifiers of a fresh
      file, the root public key, and the epochs again. */
  lemma {:induction false} HeaderOfFile(c: Crypto, root: Key, startEpoch: nat, endEpoch: nat, keys: seq<seq<Byte>>)
    requires Writable(startEpoch, endEpoch, keys)
    requires startEpoch <= MAX_SAFE_INTEGER && endEpoch <= MAX_SAFE_INTEGER
    ensures var file := FileBytes(c, root, startEpoch, endEpoch, keys);
      && |file| == 80 + 96 * (endEpoch - startEpoch + 1)
      && FromBytes(file[0..8]) == startEpoch && FromBytes(file[8..16]) == endEpoch
      && (forall i | 16 <= i < 32 :: file[i] == 0xFF)
      && file[32..64] == c.publicKey(root)
      && FromBytes(file[64..72]) == startEpoch && FromBytes(file[72..80]) == endEpoch
  {
    hide EpochBytes;
    var h := Header(startEpoch, endEpoch, c.publicKey(root));
    var file := FileBytes(c, root, startEpoch, endEpoch, keys);
    EpochRoundTrip(startEpoch);
    EpochRoundTrip(endEpoch);
    assert file[0..8] == h[0..8] == EpochBytes(startEpoch);
    assert file[8..16] == h[8..16] == EpochBytes(endEpoch);
    assert file[32..64] == h[32..64] == c.publicKey(root);
    assert file[64..72] == h[64..72] == EpochBytes(startEpoch);
    assert file[72..80] == h[72..80] == EpochBytes(endEpoch);
    forall i | 16 <= i < 32
      ensures file[i] == 0xFF
    {
      assert file[i] == h[i] == (FRESH_ID + FRESH_ID)[i - 16];
    }
  }

  /** Reading back: any file that starts with the 64 bytes of a written one is read as the same key
      when it has the same length, and is rejected when it has not. */
  lemma {:induction false} ReadBack(c: Crypto, root: Key, startEpoch: nat, endEpoch: nat, keys: seq<seq<Byte>>,
                                    file: seq<Byte>)
    requires Writable(startEpoch, endEpoch, keys)
    requires startEpoch <= MAX_SAFE_INTEGER && endEpoch <= MAX_SAFE_INTEGER
    requires |file| >= 64 && file[..64] == FileBytes(c, root, startEpoch, endEpoch, keys)[..64]
    ensures |file| == |FileBytes(c, root, startEpoch, endEpoch, keys)| ==>
              ReadVotingFile(file) == Ok(VotingKey(ToHex(c.publicKey(root)), startEpoch, endEpoch))
    ensures |file| != |FileBytes(c, root, startEpoch, endEpoch, keys)| ==> ReadVotingFile(file).Err?
  {
    hide Header;
    var h := Header(startEpoch, endEpoch, c.publicKey(root));
    HeaderFields(startEpoch, endEpoch, c.publicKey(root));
    assert FileBytes(c, root, startEpoch, endEpoch, keys)[..64] == h[..64];
    assert file[..8] == file[..64][..8] == h[..64][..8] == h[..8];
    assert file[8..16] == file[..64][8..16] == h[..64][8..16] == h[8..16];
    assert file[32..64] == file[..64][32..64] == h[..64][32..64] == h[32..64];
    EpochRoundTrip(startEpoch);
    EpochRoundTrip(endEpoch);
  }
}
