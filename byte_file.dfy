/** A file opened for reading, as the bytes it holds and a read position.
    `fread`, `fseek` and `rewind` are the only operations the header and
    module readers use. */
module ByteFile {
  import opened Common

  class File {
    const data: seq<u8>
    /** The file position; `fseek` may place it past the end. */
    var pos: nat

    constructor (data: seq<u8>)
      ensures this.data == data && pos == 0
    {
      this.data := data;
      pos := 0;
    }

    /** The bytes an `fread` of `n` bytes at position `pos` delivers. */
    static function Available(data: seq<u8>, pos: nat, n: nat): (got: seq<u8>)
      ensures |got| <= n
      ensures |got| == n <==> n == 0 || pos + n <= |data|
      ensures pos + |got| <= |data| || got == []
      ensures pos + |got| <= |data| ==> got == data[pos..pos + |got|]
    {
      if pos >= |data| then []
      else if pos + n <= |data| then data[pos..pos + n]
      else data[pos..]
    }

    /** `fread`: up to `n` bytes, fewer at the end of the file. */
    method Read(n: nat) returns (got: seq<u8>)
      modifies this`pos
      ensures got == Available(data, old(pos), n)
      ensures pos == old(pos) + |got|
    {
      got := Available(data, pos, n);
      pos := pos + |got|;
    }

    /** `fseek(fin, p, SEEK_SET)`. */
    method Seek(p: nat)
      modifies this`pos
      ensures pos == p
    {
      pos := p;
    }

    /** `rewind`. */
    method Rewind()
      modifies this`pos
      ensures pos == 0
    {
      pos := 0;
    }
  }
}
