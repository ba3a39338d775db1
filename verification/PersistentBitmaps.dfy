// filesys/pbitmap.cc: a bitmap kept in a file, as the raw bytes of its words.
module PersistentBitmaps {
  import opened Integers
  import opened Disks
  import opened Files
  import opened Bitmaps

  function AsInts(words: seq<uint32>): seq<int> {
    seq(|words|, i requires 0 <= i < |words| => words[i] as int)
  }

  function EncodeWords(words: seq<uint32>): (b: seq<byte>)
    ensures |b| == 4 * |words|
  {
    EncodeInts(AsInts(words))
  }

  function DecodeWords(b: seq<byte>): (words: seq<uint32>)
    ensures |words| == |b| / 4
  {
    seq(|b| / 4, i requires 0 <= i < |b| / 4 => DecodeUnsigned(b[4 * i..4 * i + 4]) as uint32)
  }

  lemma WordsRoundTrip(words: seq<uint32>)
    ensures DecodeWords(EncodeWords(words)) == words
  {
    var b := EncodeWords(words);
    forall i | 0 <= i < |words|
      ensures DecodeWords(b)[i] == words[i]
    {
      EncodedAt(AsInts(words), i);
      WordAt(b, words[i], i);
    }
  }

  lemma WordAt(b: seq<byte>, w: uint32, i: nat)
    requires 4 * i + 4 <= |b| && b[4 * i..4 * i + 4] == EncodeInt(w as int)
    ensures DecodeWords(b)[i] == w
  {
    UnsignedRoundTrip(w as int);
    assert (w as int) % WRAP == w as int;
  }

  // The bits that a bitmap file holds.
  function BitsIn(f: seq<byte>, n: nat): seq<bool>
    requires |f| % 4 == 0 && n <= 8 * |f|
  {
    Unpack(DecodeWords(f), n)
  }

  // new PersistentBitmap(file, numItems)
  method FetchBitmap(file: OpenFile, numItems: nat) returns (bm: Bitmap)
    requires file.Valid() && 0 < numItems && file.hdr.numBytes == 4 * DivRoundUp(numItems, BITS_IN_WORD)
    ensures bm.Valid() && fresh(bm) && fresh(bm.words) && bm.numBits == numItems
    ensures bm.Contents() == BitsIn(file.Bytes(), numItems)
  {
    bm := new Bitmap(numItems);
    var raw := file.ReadWhole();
    var words := DecodeWords(raw);
    var i := 0;
    while i < bm.words.Length
      invariant 0 <= i <= bm.words.Length
      invariant bm.words[..i] == words[..i]
    {
      bm.words[i] := words[i];
      i := i + 1;
    }
    assert bm.words[..] == words;
  }

  method WriteBackBitmap(bm: Bitmap, file: OpenFile)
    requires bm.Valid() && file.Valid() && file.hdr.numBytes == 4 * DivRoundUp(bm.numBits, BITS_IN_WORD)
    modifies file.disk
    ensures file.Valid() && bm.Contents() == old(bm.Contents())
    ensures BitsIn(file.Bytes(), bm.numBits) == bm.Contents()
    ensures forall s :: 0 <= s < NUM_SECTORS && s !in file.hdr.Data() ==> file.disk.sectors[s] == old(file.disk.sectors[s])
  {
    var raw := EncodeWords(bm.words[..]);
    WordsRoundTrip(bm.words[..]);
    file.WriteWhole(raw);
  }
}
