/** A loaded module: its header and its code block, read from a module
    file (`module_read`). */
module Modules {
  import opened Common
  import opened ByteFile
  import BinaryHeader

  /** `MODULE`: the header and the raw bytes of the code block. No task is
      attached to a module just read. */
  datatype Module = Module(header: BinaryHeader.Header, code: seq<u8>)

  /** What `module_read` does: return a module, return NULL, or whatever
      the header reader did instead (end the process, or reach undefined
      behaviour). */
  datatype ModuleResult = Found(loaded: Module) | NoModule | Exited | Undefined

  /** `module_read` on a file holding `file`, names read into buffers of
      `maxStr` chars: the header, then `hdr_code_size_bytes` bytes from
      offset `hdr_size_bytes`; a header that cannot be read or a short
      code block gives NULL. */
  function ReadModule(file: seq<u8>, maxStr: nat): (r: ModuleResult)
    ensures r.Found? <==> (BinaryHeader.Decode(file, maxStr).Decoded?
                           && var h := BinaryHeader.Decode(file, maxStr).header;
                              h.codeSizeBytes == 0 || h.sizeBytes + h.codeSizeBytes <= |file|)
    ensures r.Found? ==> var h := BinaryHeader.Decode(file, maxStr).header;
                         r.loaded.header == h && |r.loaded.code| == h.codeSizeBytes
                         && (h.codeSizeBytes > 0 ==> r.loaded.code == file[h.sizeBytes..h.sizeBytes + h.codeSizeBytes])
    ensures BinaryHeader.Decode(file, maxStr).NoHeader? ==> r == NoModule
    ensures BinaryHeader.Decode(file, maxStr).Exited? <==> r == Exited
    ensures BinaryHeader.Decode(file, maxStr).Undefined? <==> r == Undefined
  {
    match BinaryHeader.Decode(file, maxStr)
    case Decoded(h) =>
      var code := File.Available(file, h.sizeBytes, h.codeSizeBytes);
      if |code| != h.codeSizeBytes then NoModule else Found(Module(h, code))
    case NoHeader => NoModule
    case Exited => Exited
    case Undefined => Undefined
  }

  /** `module_read` on a file just opened, with the header reader's
      buffer. */
  method Read(f: File, hdr: BinaryHeader.HeaderBuffer, maxStr: nat) returns (r: ModuleResult)
    requires hdr.Valid() && f.pos == 0
    modifies hdr, hdr.bytes, f`pos
    ensures hdr.Valid()
    ensures r == ReadModule(f.data, maxStr)
  {
    var header := hdr.Read(f, maxStr);
    match header
    case Decoded(h) =>
      f.Seek(h.sizeBytes);
      var code := f.Read(h.codeSizeBytes);
      if |code| != h.codeSizeBytes {
        r := NoModule;
      } else {
        r := Found(Module(h, code));
      }
    case NoHeader => r := NoModule;
    case Exited => r := Exited;
    case Undefined => r := Undefined;
  }

  /** A file made of an encoded header, padding up to the header size
      recorded in it, and the code block reads back as that header and
      that code block, whatever follows. */
  lemma RoundTrip(h: BinaryHeader.Header, pad: seq<u8>, code: seq<u8>, rest: seq<u8>, maxStr: nat)
    requires BinaryHeader.Writable(h) && BinaryHeader.NamesFit(h, maxStr)
    requires |BinaryHeader.Encode(h)| + |pad| == h.sizeBytes <= BinaryHeader.MAX_HEADER_SIZE
    requires |code| == h.codeSizeBytes
    ensures ReadModule(BinaryHeader.Encode(h) + pad + code + rest, maxStr)
            == Found(Module(h.(labels := h.labels[..h.nLabels]), code))
  {
    var e := BinaryHeader.Encode(h);
    var file := e + pad + code + rest;
    assert file == e + (pad + code + rest);
    BinaryHeader.RoundTrip(h, pad + code + rest, maxStr);
    assert file[h.sizeBytes..h.sizeBytes + h.codeSizeBytes] == code;
  }
}
