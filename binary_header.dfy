/** The module header format: three 32-bit words (header size, label count,
    code size), the counted module name, then per label a counted name, a
    one-byte kind and a 32-bit address. Words are written in the host's
    byte order, which the model fixes as little-endian. */
module BinaryHeader {
  import opened Common
  import opened ByteFile

  /** `MAX_HEADER_SIZE`: the size of the static header buffer. */
  const MAX_HEADER_SIZE: nat := 4096
  /** `HEADER_SIZE_IDX` .. `HEADER_MODULE_NAME_IDX`. */
  const HEADER_SIZE_IDX: nat := 0
  const HEADER_N_LABELS_IDX: nat := 4
  const HEADER_CODE_SIZE_IDX: nat := 8
  const HEADER_MODULE_NAME_IDX: nat := 12

  predicate NoNul(s: seq<u8>)
  {
    forall i :: 0 <= i < |s| ==> s[i] != 0
  }

  /** The chars of a C string, without its terminator. */
  type CString = s: seq<u8> | NoNul(s)

  /** The C string held by a char buffer: its bytes up to the first NUL. */
  function CStr(b: seq<u8>): (s: CString)
    ensures |s| <= |b| && s == b[..|s|]
    ensures |s| < |b| ==> b[|s|] == 0
    ensures NoNul(b) ==> s == b
  {
    if b == [] || b[0] == 0 then []
    else [b[0]] + CStr(b[1..])
  }

  /** `HEADER_LABEL`: kind 0 is a jump label, any other value a task. */
  datatype HeaderLabel = HeaderLabel(name: CString, kind: u8, addr: u32)

  /** `HEADER`, as far as the format carries it. `labels` is the label
      array the writer reads its first `nLabels` entries from. */
  datatype Header = Header(sizeBytes: u32, nLabels: u32, codeSizeBytes: u32,
                           moduleName: CString, labels: seq<HeaderLabel>)

  // ---- words --------------------------------------------------------------

  /** The four bytes of a 32-bit word, least significant first. */
  function LE32(w: u32): (b: seq<u8>)
    ensures |b| == 4
  {
    [w % 0x100, (w / 0x100) % 0x100, (w / 0x1_0000) % 0x100, w / 0x100_0000]
  }

  function FromLE32(b: seq<u8>): (w: u32)
    requires |b| == 4
  {
    b[0] as int + 0x100 * b[1] as int + 0x1_0000 * b[2] as int + 0x100_0000 * b[3] as int
  }

  lemma LE32RoundTrip(w: u32)
    ensures FromLE32(LE32(w)) == w
  {
    var b := LE32(w);
    assert w == b[0] + 0x100 * (w / 0x100);
    assert w / 0x100 == b[1] + 0x100 * (w / 0x1_0000);
    assert w / 0x1_0000 == b[2] + 0x100 * (w / 0x100_0000);
  }

  /** The word stored at byte offset `ofs`. */
  function U32At(b: seq<u8>, ofs: nat): u32
    requires ofs + 4 <= |b|
  {
    FromLE32(b[ofs..ofs + 4])
  }

  lemma U32AtEncoded(p: seq<u8>, w: u32, rest: seq<u8>)
    ensures U32At(p + LE32(w) + rest, |p|) == w
  {
    assert (p + LE32(w) + rest)[|p|..|p| + 4] == LE32(w);
    LE32RoundTrip(w);
  }

  // ---- encoding -----------------------------------------------------------

  /** A counted string: its length as a word (the `strlen` stored in a
      `uint32_t`), then its chars, no NUL. */
  function Counted(s: CString): (b: seq<u8>)
    ensures |b| == 4 + |s|
  {
    LE32(|s| % TWO_32) + s
  }

  /** One entry of the label list. */
  function EncodeLabel(l: HeaderLabel): (b: seq<u8>)
    ensures |b| == 9 + |l.name|
  {
    Counted(l.name) + [l.kind] + LE32(l.addr)
  }

  /** The number of bytes `ls` takes in the label list. */
  function LabelsSize(ls: seq<HeaderLabel>): nat
  {
    if ls == [] then 0 else 9 + |ls[0].name| + LabelsSize(ls[1..])
  }

  /** The header size `bhdr_write` produces. */
  function EncodedSize(h: Header): nat
    requires h.nLabels <= |h.labels|
  {
    12 + (4 + |h.moduleName|) + LabelsSize(h.labels[..h.nLabels])
  }

  /** The headers `bhdr_write` handles without writing past the buffer or
      reading past the label array. */
  predicate Writable(h: Header)
  {
    h.nLabels <= |h.labels| && EncodedSize(h) <= MAX_HEADER_SIZE
  }

  function EncodeLabels(ls: seq<HeaderLabel>): (b: seq<u8>)
    ensures |b| == LabelsSize(ls)
  {
    if ls == [] then [] else EncodeLabel(ls[0]) + EncodeLabels(ls[1..])
  }

  /** The bytes `bhdr_write` emits for `h`. */
  function Encode(h: Header): (b: seq<u8>)
    requires Writable(h)
  {
    LE32(h.sizeBytes) + LE32(h.nLabels) + LE32(h.codeSizeBytes) + Counted(h.moduleName)
      + EncodeLabels(h.labels[..h.nLabels])
  }

  lemma {:induction false} LabelsSizeAppend(ls: seq<HeaderLabel>, l: HeaderLabel)
    ensures LabelsSize(ls + [l]) == LabelsSize(ls) + 9 + |l.name|
  {
    if ls == [] {
      assert [l][1..] == [];
    } else {
      assert (ls + [l])[1..] == ls[1..] + [l];
      LabelsSizeAppend(ls[1..], l);
    }
  }

  lemma {:induction false} EncodeLabelsAppend(ls: seq<HeaderLabel>, l: HeaderLabel)
    ensures EncodeLabels(ls + [l]) == EncodeLabels(ls) + EncodeLabel(l)
  {
    if ls == [] {
      assert [l][1..] == [];
    } else {
      assert (ls + [l])[1..] == ls[1..] + [l];
      EncodeLabelsAppend(ls[1..], l);
    }
  }

  /** The encoding is the three words, the module name at offset 12, and
      the label list right after the name; its size is the sum of its
      fields. */
  lemma EncodeLayout(h: Header)
    requires Writable(h)
    ensures |Encode(h)| == EncodedSize(h) == 16 + |h.moduleName| + LabelsSize(h.labels[..h.nLabels])
    ensures U32At(Encode(h), HEADER_SIZE_IDX) == h.sizeBytes
    ensures U32At(Encode(h), HEADER_N_LABELS_IDX) == h.nLabels
    ensures U32At(Encode(h), HEADER_CODE_SIZE_IDX) == h.codeSizeBytes
    ensures U32At(Encode(h), HEADER_MODULE_NAME_IDX) == |h.moduleName|
    ensures Encode(h)[HEADER_MODULE_NAME_IDX + 4..16 + |h.moduleName|] == h.moduleName
    ensures Encode(h)[16 + |h.moduleName|..] == EncodeLabels(h.labels[..h.nLabels])
  {
    EncodeWords(h);
    EncodeFields(h);
  }

  /** The four words of the encoding. */
  lemma EncodeWords(h: Header)
    requires Writable(h)
    ensures U32At(Encode(h), HEADER_SIZE_IDX) == h.sizeBytes
    ensures U32At(Encode(h), HEADER_N_LABELS_IDX) == h.nLabels
    ensures U32At(Encode(h), HEADER_CODE_SIZE_IDX) == h.codeSizeBytes
    ensures U32At(Encode(h), HEADER_MODULE_NAME_IDX) == |h.moduleName|
  {
    assert |h.moduleName| % TWO_32 == |h.moduleName|;
    var tail := Counted(h.moduleName) + EncodeLabels(h.labels[..h.nLabels]);
    assert Encode(h) == LE32(h.sizeBytes) + LE32(h.nLabels) + LE32(h.codeSizeBytes) + tail;
    U32AtEncoded([], h.sizeBytes, LE32(h.nLabels) + LE32(h.codeSizeBytes) + tail);
    U32AtEncoded(LE32(h.sizeBytes), h.nLabels, LE32(h.codeSizeBytes) + tail);
    U32AtEncoded(LE32(h.sizeBytes) + LE32(h.nLabels), h.codeSizeBytes, tail);
    U32AtEncoded(LE32(h.sizeBytes) + LE32(h.nLabels) + LE32(h.codeSizeBytes), |h.moduleName| % TWO_32,
                 h.moduleName + EncodeLabels(h.labels[..h.nLabels]));
  }

  /** The size of the encoding, and where its name and label list lie. */
  lemma EncodeFields(h: Header)
    requires Writable(h)
    ensures |Encode(h)| == EncodedSize(h) == 16 + |h.moduleName| + LabelsSize(h.labels[..h.nLabels])
    ensures Encode(h)[HEADER_MODULE_NAME_IDX + 4..16 + |h.moduleName|] == h.moduleName
    ensures Encode(h)[16 + |h.moduleName|..] == EncodeLabels(h.labels[..h.nLabels])
  {
    var words := LE32(h.sizeBytes) + LE32(h.nLabels) + LE32(h.codeSizeBytes) + LE32(|h.moduleName| % TWO_32);
    assert Encode(h) == words + h.moduleName + EncodeLabels(h.labels[..h.nLabels]);
  }

  // ---- decoding -----------------------------------------------------------

  /** What `bhdr_read` does: return a header, return NULL, end the process
      (it calls `exit(0)` when the size word cannot be read), or reach
      behaviour C leaves undefined (a read or copy outside `g_header` or
      outside a name buffer of `maxStr` chars). */
  datatype ReadResult = Decoded(header: Header) | NoHeader | Exited | Undefined

  function Zeros(n: nat): (z: seq<u8>)
    ensures |z| == n && forall i :: 0 <= i < n ==> z[i] == 0
  {
    seq(n, _ => 0)
  }

  /** `g_header` after `bhdr_init` and a raw read that delivered `got`. */
  function Loaded(got: seq<u8>): (buf: seq<u8>)
    requires |got| <= MAX_HEADER_SIZE
    ensures |buf| == MAX_HEADER_SIZE && buf[..|got|] == got
  {
    got + Zeros(MAX_HEADER_SIZE - |got|)
  }

  /** `bhdr_get_counted_string(ofs, ·)` into a buffer of `maxStr` chars:
      the copied name and the offset just past it, or None where C is
      undefined. */
  function GetCounted(buf: seq<u8>, ofs: nat, maxStr: nat): (r: Option<(CString, nat)>)
    requires |buf| == MAX_HEADER_SIZE
    ensures r.Some? ==> ofs + 4 <= r.value.1 <= MAX_HEADER_SIZE && r.value.1 == ofs + 4 + U32At(buf, ofs)
  {
    if ofs + 4 > MAX_HEADER_SIZE then None
    else
      var n := U32At(buf, ofs);
      if n + 1 > maxStr || ofs + 4 + n > MAX_HEADER_SIZE then None
      else Some((CStr(buf[ofs + 4..ofs + 4 + n]), ofs + 4 + n))
  }

  /** One label of the label list at offset `ofs`, and the offset after
      it. */
  function DecodeOne(buf: seq<u8>, ofs: nat, maxStr: nat): (r: Option<(HeaderLabel, nat)>)
    requires |buf| == MAX_HEADER_SIZE
  {
    match GetCounted(buf, ofs, maxStr)
    case None => None
    case Some((name, next)) =>
      if next + 5 > MAX_HEADER_SIZE then None
      else Some((HeaderLabel(name, buf[next], U32At(buf, next + 1)), next + 5))
  }

  /** The label loop of `bhdr_read` after `count` turns: the labels read
      from offset `ofs` on and the offset after them. */
  function DecodeLabels(buf: seq<u8>, ofs: nat, count: nat, maxStr: nat): (r: Option<(seq<HeaderLabel>, nat)>)
    requires |buf| == MAX_HEADER_SIZE
    ensures r.Some? ==> |r.value.0| == count
  {
    if count == 0 then Some(([], ofs))
    else match DecodeLabels(buf, ofs, count - 1, maxStr)
      case None => None
      case Some((ls, next)) =>
        match DecodeOne(buf, next, maxStr)
        case None => None
        case Some((l, after)) => Some((ls + [l], after))
  }

  /** The fields `bhdr_read` takes from a loaded buffer of `n` bytes. */
  function DecodeBuffer(buf: seq<u8>, n: u32, maxStr: nat): ReadResult
    requires |buf| == MAX_HEADER_SIZE
  {
    var nLabels := U32At(buf, HEADER_N_LABELS_IDX);
    match GetCounted(buf, HEADER_MODULE_NAME_IDX, maxStr)
    case None => Undefined
    case Some((name, listOfs)) =>
      match DecodeLabels(buf, listOfs, nLabels, maxStr)
      case None => Undefined
      case Some((labels, _)) =>
        Decoded(Header(n, nLabels, U32At(buf, HEADER_CODE_SIZE_IDX), name, labels))
  }

  /** `bhdr_read` on a file holding `file`, names read into buffers of
      `maxStr` chars. */
  function Decode(file: seq<u8>, maxStr: nat): ReadResult
  {
    if |file| < 4 then Exited
    else
      var n := U32At(file, 0);
      var got := if n <= |file| then n else |file|;
      if got > MAX_HEADER_SIZE then Undefined
      else if got < n then NoHeader
      else DecodeBuffer(Loaded(file[..n]), n, maxStr)
  }

  // ---- round trip ---------------------------------------------------------

  /** Every name of `h` that is written fits a buffer of `maxStr` chars with
      its terminator. */
  predicate NamesFit(h: Header, maxStr: nat)
    requires h.nLabels <= |h.labels|
  {
    |h.moduleName| < maxStr && forall i :: 0 <= i < h.nLabels ==> |h.labels[i].name| < maxStr
  }

  /** `buf` holds `s` from offset `ofs` on. */
  predicate At(buf: seq<u8>, ofs: nat, s: seq<u8>)
  {
    ofs + |s| <= |buf| && buf[ofs..ofs + |s|] == s
  }

  lemma AtConcat(buf: seq<u8>, ofs: nat, a: seq<u8>, b: seq<u8>)
    requires At(buf, ofs, a + b)
    ensures At(buf, ofs, a) && At(buf, ofs + |a|, b)
  {
    forall k | 0 <= k < |a|
      ensures buf[ofs..ofs + |a|][k] == a[k]
    {
      assert buf[ofs + k] == buf[ofs..ofs + |a| + |b|][k] == (a + b)[k];
    }
    forall k | 0 <= k < |b|
      ensures buf[ofs + |a|..ofs + |a| + |b|][k] == b[k]
    {
      assert buf[ofs + |a| + k] == buf[ofs..ofs + |a| + |b|][|a| + k] == (a + b)[|a| + k];
    }
  }

  lemma AtSlice(buf: seq<u8>, ofs: nat, s: seq<u8>)
    requires At(buf, ofs, s)
    ensures buf[ofs..ofs + |s|] == s
  {
  }

  lemma WordAt(buf: seq<u8>, ofs: nat, w: u32)
    requires At(buf, ofs, LE32(w))
    ensures U32At(buf, ofs) == w
  {
    AtSlice(buf, ofs, LE32(w));
    LE32RoundTrip(w);
  }

  lemma CountedAt(buf: seq<u8>, ofs: nat, s: CString, maxStr: nat)
    requires |buf| == MAX_HEADER_SIZE && |s| < maxStr
    requires At(buf, ofs, Counted(s))
    ensures GetCounted(buf, ofs, maxStr) == Some((s, ofs + 4 + |s|))
  {
    assert |s| % TWO_32 == |s|;
    AtConcat(buf, ofs, LE32(|s|), s);
    WordAt(buf, ofs, |s|);
    AtSlice(buf, ofs + 4, s);
  }

  /** One encoded label reads back field by field. */
  lemma DecodeEncodedLabel(buf: seq<u8>, ofs: nat, l: HeaderLabel, maxStr: nat)
    requires |buf| == MAX_HEADER_SIZE && |l.name| < maxStr
    requires At(buf, ofs, EncodeLabel(l))
    ensures DecodeOne(buf, ofs, maxStr) == Some((l, ofs + 9 + |l.name|))
  {
    var n := |l.name|;
    AtConcat(buf, ofs, Counted(l.name) + [l.kind], LE32(l.addr));
    AtConcat(buf, ofs, Counted(l.name), [l.kind]);
    CountedAt(buf, ofs, l.name, maxStr);
    assert buf[ofs + 4 + n + 0] == [l.kind][0];
    WordAt(buf, ofs + 5 + n, l.addr);
  }

  /** One more turn of the label loop after `k` successful ones. */
  lemma DecodeLabelsSnoc(buf: seq<u8>, ofs: nat, k: nat, maxStr: nat,
                         ls: seq<HeaderLabel>, next: nat, l: HeaderLabel, after: nat)
    requires |buf| == MAX_HEADER_SIZE
    requires DecodeLabels(buf, ofs, k, maxStr) == Some((ls, next))
    requires DecodeOne(buf, next, maxStr) == Some((l, after))
    ensures DecodeLabels(buf, ofs, k + 1, maxStr) == Some((ls + [l], after))
  {
  }

  /** The decoder's label loop reads back the first `k` labels the encoder
      wrote (`pre`), and stops right after them. */
  lemma {:induction false} DecodeEncodedPrefix(buf: seq<u8>, ofs: nat, ls: seq<HeaderLabel>, k: nat,
                                               pre: seq<HeaderLabel>, maxStr: nat)
    requires |buf| == MAX_HEADER_SIZE && k <= |ls| && pre == ls[..k]
    requires At(buf, ofs, EncodeLabels(pre))
    requires forall j :: 0 <= j < |ls| ==> |ls[j].name| < maxStr
    ensures DecodeLabels(buf, ofs, k, maxStr) == Some((pre, ofs + LabelsSize(pre)))
    decreases k
  {
    if k > 0 {
      var init, l := ls[..k - 1], ls[k - 1];
      assert pre == init + [l];
      LabelsSizeAppend(init, l);
      EncodeLabelsAppend(init, l);
      AtConcat(buf, ofs, EncodeLabels(init), EncodeLabel(l));
      DecodeEncodedPrefix(buf, ofs, ls, k - 1, init, maxStr);
      var next := ofs + LabelsSize(init);
      DecodeEncodedLabel(buf, next, l, maxStr);
      DecodeLabelsSnoc(buf, ofs, k - 1, maxStr, init, next, l, ofs + LabelsSize(pre));
    }
  }

  /** The decoder's label loop reads back every label the encoder wrote,
      and stops right after them. */
  lemma DecodeEncodedLabels(buf: seq<u8>, ofs: nat, ls: seq<HeaderLabel>, maxStr: nat)
    requires |buf| == MAX_HEADER_SIZE && At(buf, ofs, EncodeLabels(ls))
    requires forall k :: 0 <= k < |ls| ==> |ls[k].name| < maxStr
    ensures DecodeLabels(buf, ofs, |ls|, maxStr) == Some((ls, ofs + LabelsSize(ls)))
  {
    assert ls[..|ls|] == ls;
    DecodeEncodedPrefix(buf, ofs, ls, |ls|, ls, maxStr);
  }

  /** The fields of a buffer that starts with an encoding decode to the
      header encoded. */
  lemma DecodeBufferEncoded(buf: seq<u8>, h: Header, maxStr: nat)
    requires Writable(h) && NamesFit(h, maxStr)
    requires |buf| == MAX_HEADER_SIZE && At(buf, 0, Encode(h))
    ensures DecodeBuffer(buf, h.sizeBytes, maxStr) == Decoded(h.(labels := h.labels[..h.nLabels]))
  {
    var w0, w1, w2 := LE32(h.sizeBytes), LE32(h.nLabels), LE32(h.codeSizeBytes);
    var name := Counted(h.moduleName);
    var ls := h.labels[..h.nLabels];
    assert Encode(h) == w0 + w1 + w2 + name + EncodeLabels(ls);
    AtConcat(buf, 0, w0 + w1 + w2 + name, EncodeLabels(ls));
    AtConcat(buf, 0, w0 + w1 + w2, name);
    AtConcat(buf, 0, w0 + w1, w2);
    AtConcat(buf, 0, w0, w1);
    WordAt(buf, HEADER_N_LABELS_IDX, h.nLabels);
    WordAt(buf, HEADER_CODE_SIZE_IDX, h.codeSizeBytes);
    CountedAt(buf, HEADER_MODULE_NAME_IDX, h.moduleName, maxStr);
    DecodeEncodedLabels(buf, 16 + |h.moduleName|, ls, maxStr);
  }

  /** `bhdr_read` recovers what `bhdr_write` wrote, whatever follows the
      header in the file, as long as the size word covers the encoding and
      fits the buffer and every name fits its buffer. The decoded label
      list is the part of the array the writer emitted. */
  lemma RoundTrip(h: Header, rest: seq<u8>, maxStr: nat)
    requires Writable(h) && NamesFit(h, maxStr)
    requires |Encode(h)| <= h.sizeBytes <= MAX_HEADER_SIZE && h.sizeBytes <= |Encode(h)| + |rest|
    ensures Decode(Encode(h) + rest, maxStr) == Decoded(h.(labels := h.labels[..h.nLabels]))
  {
    var e := Encode(h);
    var file := e + rest;
    assert At(file, 0, e);
    AtConcat(file, 0, LE32(h.sizeBytes), e[4..]);
    WordAt(file, 0, h.sizeBytes);
    var buf := Loaded(file[..h.sizeBytes]);
    assert At(buf, 0, e) by {
      forall k | 0 <= k < |e|
        ensures buf[k] == e[k]
      {
        assert buf[k] == buf[..h.sizeBytes][k] == file[k];
      }
    }
    DecodeBufferEncoded(buf, h, maxStr);
  }

  /** The decoded size field is the file's first word, whatever it is. */
  lemma DecodedSizeIsFirstWord(file: seq<u8>, maxStr: nat)
    requires Decode(file, maxStr).Decoded?
    ensures |file| >= 4 && Decode(file, maxStr).header.sizeBytes == U32At(file, 0)
  {
  }

  /** A file shorter than its size word (and not longer than the buffer)
      gives NULL; one too short to hold the size word ends the process. */
  lemma ShortFile(file: seq<u8>, maxStr: nat)
    ensures |file| < 4 ==> Decode(file, maxStr) == Exited
    ensures 4 <= |file| <= MAX_HEADER_SIZE && |file| < U32At(file, 0) ==> Decode(file, maxStr) == NoHeader
  {
  }

  // ---- the header buffer --------------------------------------------------

  /** Bytes copied into a buffer right before a NUL read back as the same C
      string, whatever follows the NUL. */
  lemma {:induction false} CStrTerminated(x: seq<u8>, y: seq<u8>)
    ensures CStr(x + [0] + y) == CStr(x)
  {
    if x != [] && x[0] != 0 {
      assert (x + [0] + y)[1..] == x[1..] + [0] + y;
      CStrTerminated(x[1..], y);
    }
  }

  /** Whether `bhdr_get_counted_string(ofs, ·)` stays inside `g_header` and
      inside a name buffer of `maxStr` chars. */
  predicate CountedFits(buf: seq<u8>, ofs: nat, maxStr: nat)
  {
    ofs + 4 <= |buf| && U32At(buf, ofs) + 1 <= maxStr && ofs + 4 + U32At(buf, ofs) <= |buf|
  }

  lemma {:induction false} LabelsSizeStep(ls: seq<HeaderLabel>, i: nat)
    requires i < |ls|
    ensures LabelsSize(ls[..i + 1]) == LabelsSize(ls[..i]) + 9 + |ls[i].name|
    ensures EncodeLabels(ls[..i + 1]) == EncodeLabels(ls[..i]) + EncodeLabel(ls[i])
  {
    assert ls[..i + 1] == ls[..i] + [ls[i]];
    LabelsSizeAppend(ls[..i], ls[i]);
    EncodeLabelsAppend(ls[..i], ls[i]);
  }

  lemma {:induction false} LabelsSizeMono(ls: seq<HeaderLabel>, i: nat, j: nat)
    requires i <= j <= |ls|
    ensures LabelsSize(ls[..i]) <= LabelsSize(ls[..j])
    decreases j - i
  {
    if i < j {
      LabelsSizeStep(ls, i);
      LabelsSizeMono(ls, i + 1, j);
    }
  }

  /** An offset at which the C reader would cause undefined behaviour is exactly
      one where the counted-string decoder gives up. */
  lemma GetCountedFails(buf: seq<u8>, ofs: nat, maxStr: nat)
    requires |buf| == MAX_HEADER_SIZE
    ensures GetCounted(buf, ofs, maxStr).None? <==> !CountedFits(buf, ofs, maxStr)
  {
  }

  /** The buffer after `bhdr_init` and a complete raw read of `n` bytes. */
  lemma LoadedFile(data: seq<u8>, n: u32, buf: seq<u8>, maxStr: nat)
    requires 4 <= |data| && n == U32At(data, 0) && n <= |data| && n <= MAX_HEADER_SIZE
    requires buf == File.Available(data, 0, n) + Zeros(MAX_HEADER_SIZE)[n..]
    ensures buf == Loaded(data[..n])
    ensures Decode(data, maxStr) == DecodeBuffer(buf, n, maxStr)
  {
    assert Zeros(MAX_HEADER_SIZE)[n..] == Zeros(MAX_HEADER_SIZE - n);
  }

  /** Once a turn of the label loop fails, the loop fails. */
  lemma {:induction false} DecodeLabelsStaysFailed(buf: seq<u8>, ofs: nat, i: nat, j: nat, maxStr: nat)
    requires |buf| == MAX_HEADER_SIZE && i <= j && DecodeLabels(buf, ofs, i, maxStr).None?
    ensures DecodeLabels(buf, ofs, j, maxStr).None?
    decreases j - i
  {
    if i < j {
      DecodeLabelsStaysFailed(buf, ofs, i, j - 1, maxStr);
    }
  }

  /** Storing `w` right after a prefix `p` the buffer holds extends it. */
  lemma StoreExtends(pre: seq<u8>, post: seq<u8>, p: seq<u8>, w: seq<u8>)
    requires |p| + |w| <= |pre| && pre[..|p|] == p
    requires post == pre[..|p|] + w + pre[|p| + |w|..]
    ensures post[..|p| + |w|] == p + w
  {
    assert post[..|p| + |w|] == (pre[..|p|] + w + pre[|p| + |w|..])[..|p| + |w|];
  }

  /** `g_header` and its cursor `g_idx_header`. */
  class HeaderBuffer {
    const bytes: array<u8>
    var idx: u32

    ghost predicate Valid()
      reads this
    {
      bytes.Length == MAX_HEADER_SIZE && idx <= MAX_HEADER_SIZE
    }

    /** The static buffer, zero before first use. */
    constructor ()
      ensures Valid() && fresh(bytes) && idx == 0
      ensures bytes[..] == Zeros(MAX_HEADER_SIZE)
    {
      bytes := new u8[MAX_HEADER_SIZE](_ => 0);
      idx := 0;
    }

    /** `bhdr_init`. */
    method Init()
      requires Valid()
      modifies this, bytes
      ensures Valid() && bytes[..] == Zeros(MAX_HEADER_SIZE) && idx == 0
    {
      var i := 0;
      while i < MAX_HEADER_SIZE
        invariant 0 <= i <= MAX_HEADER_SIZE
        invariant forall j :: 0 <= j < i ==> bytes[j] == 0
      {
        bytes[i] := 0;
        i := i + 1;
      }
      idx := 0;
    }

    /** `bhdr_add_u32_to_header`. */
    method AddU32(w: u32)
      requires Valid() && idx + 4 <= MAX_HEADER_SIZE
      modifies this, bytes
      ensures Valid()
      ensures bytes[..] == old(bytes[..idx]) + LE32(w) + old(bytes[idx + 4..])
      ensures idx == old(idx) + 4
    {
      var b := LE32(w);
      bytes[idx], bytes[idx + 1], bytes[idx + 2], bytes[idx + 3] := b[0], b[1], b[2], b[3];
      idx := idx + 4;
    }

    /** `bhdr_add_u8_to_header`. */
    method AddU8(v: u8)
      requires Valid() && idx + 1 <= MAX_HEADER_SIZE
      modifies this, bytes
      ensures Valid()
      ensures bytes[..] == old(bytes[..idx]) + [v] + old(bytes[idx + 1..])
      ensures idx == old(idx) + 1
    {
      bytes[idx] := v;
      idx := idx + 1;
    }

    /** `bhdr_add_counted_string_to_header`. */
    method AddCountedString(s: CString)
      requires Valid() && idx + 4 + |s| <= MAX_HEADER_SIZE
      modifies this, bytes
      ensures Valid()
      ensures bytes[..] == old(bytes[..idx]) + Counted(s) + old(bytes[idx + 4 + |s|..])
      ensures idx == old(idx) + 4 + |s|
    {
      AddU32(|s| % TWO_32);
      ghost var mid := bytes[..];
      CopyChars(s);
      assert mid[..idx] == old(bytes[..idx]) + LE32(|s| % TWO_32);
      assert mid[idx + |s|..] == old(bytes[idx + 4 + |s|..]);
      idx := idx + |s| as u32;
    }

    /** The copy loop of `bhdr_add_counted_string_to_header`: the chars
        of `s` go to the buffer from `idx` on. */
    method CopyChars(s: CString)
      requires Valid() && idx + |s| <= MAX_HEADER_SIZE
      modifies bytes
      ensures bytes[..] == old(bytes[..idx]) + s + old(bytes[idx + |s|..])
    {
      var j := 0;
      while j < |s|
        invariant 0 <= j <= |s|
        invariant forall k :: 0 <= k < idx ==> bytes[k] == old(bytes[k])
        invariant forall k :: 0 <= k < j ==> bytes[idx + k] == s[k]
        invariant forall k :: idx + j <= k < MAX_HEADER_SIZE ==> bytes[k] == old(bytes[k])
      {
        bytes[idx + j] := s[j];
        j := j + 1;
      }
      assert bytes[..] == old(bytes[..idx]) + s + old(bytes[idx + |s|..]);
    }

    /** `bhdr_get_u32`. */
    method GetU32(ofs: nat) returns (w: u32)
      requires Valid() && ofs + 4 <= MAX_HEADER_SIZE
      ensures w == U32At(bytes[..], ofs)
    {
      assert bytes[..][ofs..ofs + 4] == [bytes[ofs], bytes[ofs + 1], bytes[ofs + 2], bytes[ofs + 3]];
      w := FromLE32([bytes[ofs], bytes[ofs + 1], bytes[ofs + 2], bytes[ofs + 3]]);
    }

    /** `bhdr_get_u8`. */
    method GetU8(ofs: nat) returns (v: u8)
      requires Valid() && ofs < MAX_HEADER_SIZE
      ensures v == bytes[ofs]
    {
      v := bytes[ofs];
    }

    /** `bhdr_get_label_count`. */
    method GetLabelCount() returns (n: u32)
      requires Valid()
      ensures n == U32At(bytes[..], HEADER_N_LABELS_IDX)
    {
      n := GetU32(HEADER_N_LABELS_IDX);
    }

    /** `bhdr_get_code_size_in_bytes`. */
    method GetCodeSizeInBytes() returns (n: u32)
      requires Valid()
      ensures n == U32At(bytes[..], HEADER_CODE_SIZE_IDX)
    {
      n := GetU32(HEADER_CODE_SIZE_IDX);
    }

    /** `bhdr_get_counted_string_size`. */
    method GetCountedStringSize(ofs: nat) returns (n: u32)
      requires Valid() && ofs + 4 <= MAX_HEADER_SIZE
      ensures n == U32At(bytes[..], ofs)
    {
      n := GetU32(ofs);
    }

    /** `bhdr_get_label_list_ofs`: the offset just past the module name,
        computed in 32 bits. */
    method GetLabelListOfs() returns (ofs: u32)
      requires Valid()
      ensures ofs == (HEADER_MODULE_NAME_IDX + 4 + U32At(bytes[..], HEADER_MODULE_NAME_IDX)) % TWO_32
    {
      var nChars := GetCountedStringSize(HEADER_MODULE_NAME_IDX);
      ofs := (HEADER_MODULE_NAME_IDX + 4 + nChars) % TWO_32;
    }

    /** `bhdr_get_counted_string`: zero the first size+1 chars of `cstr`,
        copy the size chars after the length word into it, and return the
        size. */
    method GetCountedString(ofs: nat, cstr: array<u8>) returns (size: u32)
      requires Valid() && cstr != bytes && CountedFits(bytes[..], ofs, cstr.Length)
      modifies cstr
      ensures size == U32At(bytes[..], ofs)
      ensures cstr[..] == bytes[ofs + 4..ofs + 4 + size] + [0] + old(cstr[size + 1..])
    {
      size := GetU32(ofs);
      var j := 0;
      while j < size + 1
        invariant 0 <= j <= size + 1
        invariant forall k :: 0 <= k < j ==> cstr[k] == 0
        invariant forall k :: j <= k < cstr.Length ==> cstr[k] == old(cstr[k])
      {
        cstr[j] := 0;
        j := j + 1;
      }
      j := 0;
      while j < size
        invariant 0 <= j <= size
        invariant forall k :: 0 <= k < j ==> cstr[k] == bytes[ofs + 4 + k]
        invariant forall k :: j <= k <= size ==> cstr[k] == 0
        invariant forall k :: size < k < cstr.Length ==> cstr[k] == old(cstr[k])
      {
        cstr[j] := bytes[ofs + 4 + j];
        j := j + 1;
      }
      assert cstr[..] == bytes[ofs + 4..ofs + 4 + size] + [0] + old(cstr[size + 1..]);
    }

    /** `bhdr_raw_read`: `fread` into the start of `g_header`. */
    method RawRead(f: File, n: nat) returns (count: nat)
      requires Valid() && |File.Available(f.data, f.pos, n)| <= MAX_HEADER_SIZE
      modifies bytes, f`pos
      ensures count == |File.Available(f.data, old(f.pos), n)|
      ensures bytes[..] == File.Available(f.data, old(f.pos), n) + old(bytes[count..])
      ensures f.pos == old(f.pos) + count
    {
      var got := f.Read(n);
      count := |got|;
      var j := 0;
      while j < count
        invariant 0 <= j <= count
        invariant f.pos == old(f.pos) + count
        invariant forall k :: 0 <= k < j ==> bytes[k] == got[k]
        invariant forall k :: j <= k < MAX_HEADER_SIZE ==> bytes[k] == old(bytes[k])
      {
        bytes[j] := got[j];
        j := j + 1;
      }
      assert bytes[..] == got + old(bytes[count..]);
    }

    /** `bhdr_raw_write`: the bytes written so far, as `fwrite` sends them. */
    method RawWrite() returns (out: seq<u8>)
      requires Valid()
      ensures out == bytes[..idx]
    {
      out := bytes[..idx];
    }
 
    /** The three words and the module name that open the header. */
    method WriteFixed(h: Header)
      requires Valid() && idx == 0 && 16 + |h.moduleName| <= MAX_HEADER_SIZE
      modifies this, bytes
      ensures Valid()
      ensures bytes[..idx] == LE32(h.sizeBytes) + LE32(h.nLabels) + LE32(h.codeSizeBytes) + Counted(h.moduleName)
    {
      ghost var b := bytes[..];
      AddU32(h.sizeBytes);
      StoreExtends(b, bytes[..], [], LE32(h.sizeBytes));
      b := bytes[..];
      AddU32(h.nLabels);
      StoreExtends(b, bytes[..], LE32(h.sizeBytes), LE32(h.nLabels));
      b := bytes[..];
      AddU32(h.codeSizeBytes);
      StoreExtends(b, bytes[..], LE32(h.sizeBytes) + LE32(h.nLabels), LE32(h.codeSizeBytes));
      b := bytes[..];
      AddCountedString(h.moduleName);
      StoreExtends(b, bytes[..], LE32(h.sizeBytes) + LE32(h.nLabels) + LE32(h.codeSizeBytes), Counted(h.moduleName));
    }

    /** One turn of the label loop of `bhdr_write`: name, kind, address. */
    method WriteLabel(l: HeaderLabel)
      requires Valid() && idx + 9 + |l.name| <= MAX_HEADER_SIZE
      modifies this, bytes
      ensures Valid()
      ensures idx == old(idx) + 9 + |l.name|
      ensures bytes[..idx] == old(bytes[..idx]) + EncodeLabel(l)
    {
      ghost var done := bytes[..idx];
      ghost var b := bytes[..];
      AddCountedString(l.name);
      StoreExtends(b, bytes[..], done, Counted(l.name));
      b := bytes[..];
      AddU8(l.kind);
      StoreExtends(b, bytes[..], done + Counted(l.name), [l.kind]);
      b := bytes[..];
      AddU32(l.addr);
      StoreExtends(b, bytes[..], done + Counted(l.name) + [l.kind], LE32(l.addr));
    }

    /** `bhdr_write`: fill the buffer field by field and hand back the
        bytes written. */
    method Write(h: Header) returns (out: seq<u8>)
      requires Valid() && Writable(h)
      modifies this, bytes
      ensures Valid()
      ensures out == Encode(h)
    {
      Init();
      LabelsSizeMono(h.labels, 0, h.nLabels);
      WriteFixed(h);
      ghost var prefix := bytes[..idx];
      assert h.labels[..0] == [];
      var i := 0;
      while i < h.nLabels
        invariant 0 <= i <= h.nLabels
        invariant Valid()
        invariant idx == |prefix| + LabelsSize(h.labels[..i])
        invariant bytes[..idx] == prefix + EncodeLabels(h.labels[..i])
      {
        WriteNextLabel(h, i, prefix);
        i := i + 1;
      }
      out := RawWrite();
    }

    /** The turn of the label loop of `bhdr_write` for label `i`. */
    method WriteNextLabel(h: Header, i: nat, ghost prefix: seq<u8>)
      requires Valid() && Writable(h) && i < h.nLabels && |prefix| == 16 + |h.moduleName|
      requires idx == |prefix| + LabelsSize(h.labels[..i]) && bytes[..idx] == prefix + EncodeLabels(h.labels[..i])
      modifies this, bytes
      ensures Valid()
      ensures idx == |prefix| + LabelsSize(h.labels[..i + 1])
      ensures bytes[..idx] == prefix + EncodeLabels(h.labels[..i + 1])
    {
      LabelsSizeStep(h.labels, i);
      LabelsSizeMono(h.labels, i + 1, h.nLabels);
      WriteLabel(h.labels[i]);
    }

    /** `bhdr_get_counted_string(ofs, ·)` into a fresh name buffer of
        `maxStr` chars, giving up where C is undefined. */
    method ReadCounted(ofs: nat, maxStr: nat) returns (r: Option<(CString, nat)>)
      requires Valid()
      ensures r == GetCounted(bytes[..], ofs, maxStr)
    {
      GetCountedFails(bytes[..], ofs, maxStr);
      if !CountedFits(bytes[..], ofs, maxStr) {
        return None;
      }
      var cstr := new u8[maxStr];
      var size := GetCountedString(ofs, cstr);
      CStrTerminated(bytes[ofs + 4..ofs + 4 + size], cstr[size + 1..]);
      assert CStr(cstr[..]) == CStr(bytes[..][ofs + 4..ofs + 4 + size]);
      r := Some((CStr(cstr[..]), ofs + 4 + size));
    }

    /** One turn of the label loop of `bhdr_read`: name, kind, address. */
    method ReadLabel(offset: nat, maxStr: nat) returns (r: Option<(HeaderLabel, nat)>)
      requires Valid()
      ensures r == DecodeOne(bytes[..], offset, maxStr)
    {
      var name := ReadCounted(offset, maxStr);
      if name.None? || name.value.1 + 5 > MAX_HEADER_SIZE {
        return None;
      }
      var ofs := name.value.1;
      var kind := GetU8(ofs);
      ofs := ofs + 1;
      var addr := GetU32(ofs);
      ofs := ofs + 4;
      r := Some((HeaderLabel(name.value.0, kind, addr), ofs));
    }

    /** The label loop of `bhdr_read`. */
    method ReadLabels(listOfs: nat, nLabels: u32, maxStr: nat) returns (r: Option<(seq<HeaderLabel>, nat)>)
      requires Valid()
      ensures r == DecodeLabels(bytes[..], listOfs, nLabels, maxStr)
    {
      ghost var buf := bytes[..];
      var labels: seq<HeaderLabel> := [];
      var offset: nat := listOfs;
      var i := 0;
      while i < nLabels
        invariant 0 <= i <= nLabels
        invariant DecodeLabels(buf, listOfs, i, maxStr) == Some((labels, offset))
      {
        var one := ReadLabel(offset, maxStr);
        assert bytes[..] == buf;
        if one.None? {
          DecodeLabelsStaysFailed(buf, listOfs, i + 1, nLabels, maxStr);
          return None;
        }
        labels := labels + [one.value.0];
        offset := one.value.1;
        i := i + 1;
      }
      r := Some((labels, offset));
    }

    /** `bhdr_read` on a file just opened (position 0). */
    method Read(f: File, maxStr: nat) returns (r: ReadResult)
      requires Valid() && f.pos == 0
      modifies this, bytes, f`pos
      ensures Valid()
      ensures r == Decode(f.data, maxStr)
    {
      Init();
      var word := f.Read(4);
      if |word| < 4 {
        r := Exited;
        return;
      }
      var n := FromLE32(word);
      assert n == U32At(f.data, 0);
      f.Rewind();
      if |File.Available(f.data, 0, n)| > MAX_HEADER_SIZE {
        r := Undefined;
        return;
      }
      var count := RawRead(f, n);
      if count != n {
        r := NoHeader;
        return;
      }
      LoadedFile(f.data, n, bytes[..], maxStr);
      r := DecodeLoaded(n, maxStr);
    }

    /** The part of `bhdr_read` after the raw read: the fields of the
        loaded buffer. */
    method DecodeLoaded(n: u32, maxStr: nat) returns (r: ReadResult)
      requires Valid()
      ensures r == DecodeBuffer(bytes[..], n, maxStr)
    {
      var nLabels := GetLabelCount();
      var codeSize := GetCodeSizeInBytes();
      var name := ReadCounted(HEADER_MODULE_NAME_IDX, maxStr);
      if name.None? {
        r := Undefined;
        return;
      }
      var listOfs := GetLabelListOfs();
      assert listOfs == name.value.1;
      var labels := ReadLabels(listOfs, nLabels, maxStr);
      assert labels == DecodeLabels(bytes[..], name.value.1, nLabels, maxStr);
      if labels.None? {
        r := Undefined;
        return;
      }
      r := Decoded(Header(n, nLabels, codeSize, name.value.0, labels.value.0));
    }
  }
}
