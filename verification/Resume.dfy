/**
 Resume validation: the first bytes of the stream are read and looked at, and the caller is handed a
 reader that delivers the stream from its start.
 */
module Resume {
  import opened Text
  import opened Utf8
  import opened Filename
  import opened Wrappers

  const MAX_RESUME_SIZE := 10 * 1024 * 1024
  const HEADER := 512

  datatype Status = More | Eof | Broken

  function Flatten(chunks: seq<Str>): Str {
    if chunks == [] then [] else chunks[0] + Flatten(chunks[1..])
  }

  /**
   An io.Reader: the bytes it will deliver, cut in advance into the pieces successive reads return at
   most, how the stream ends, and whether the end is reported together with the last bytes.
   */
  class Reader {
    var chunks: seq<Str>
    const broken: bool
    const eager: bool

    constructor (chunks: seq<Str>, broken: bool, eager: bool)
      ensures this.chunks == chunks && this.broken == broken && this.eager == eager
    {
      this.chunks, this.broken, this.eager := chunks, broken, eager;
    }

    ghost function Content(): Str
      reads this
    {
      Flatten(chunks)
    }

    /** Decreases with every read that does not report the end. */
    ghost function Size(): nat
      reads this
    {
      |chunks| + |Content()|
    }

    method Read(max: nat) returns (data: Str, status: Status)
      requires max > 0
      modifies this`chunks
      ensures |data| <= max && old(Content()) == data + Content()
      ensures status == More ==> Size() < old(Size())
      ensures status != More ==> Content() == [] && (status == Broken <==> broken)
    {
      if chunks == [] {
        return [], if broken then Broken else Eof;
      }
      var c := chunks[0];
      if |c| <= max {
        chunks := chunks[1..];
        data := c;
      } else {
        chunks := [c[max..]] + chunks[1..];
        data := c[..max];
        assert c == data + c[max..];
      }
      status := if chunks == [] && eager then (if broken then Broken else Eof) else More;
    }
  }

  /** io.ReadFull: an end of the stream is an error only if the buffer is not full yet. */
  method ReadFull(r: Reader, n: nat) returns (buf: Str, broken: bool)
    modifies r`chunks
    ensures old(r.Content()) == buf + r.Content()
    ensures |buf| == if |old(r.Content())| < n then |old(r.Content())| else n
    ensures broken <==> r.broken && |old(r.Content())| < n
  {
    buf := [];
    var status := More;
    while |buf| < n && status == More
      invariant old(r.Content()) == buf + r.Content() && |buf| <= n
      invariant status != More ==> r.Content() == [] && (status == Broken <==> r.broken)
      decreases if status == More then 1 else 0, r.Size()
    {
      var data;
      data, status := r.Read(n - |buf|);
      buf := buf + data;
    }
    broken := |buf| < n && status == Broken;
  }

  /** io.MultiReader of the bytes already read and the reader they came from. */
  datatype Rejoined = Rejoined(header: Str, rest: Reader)

  /** Reading it to its end delivers everything the original reader held, whatever its pieces. */
  method ReadAll(r: Rejoined) returns (data: Str, broken: bool)
    modifies r.rest`chunks
    ensures data == r.header + old(r.rest.Content()) && (broken <==> r.rest.broken)
  {
    data := r.header;
    var status := More;
    while status == More
      invariant data + r.rest.Content() == r.header + old(r.rest.Content())
      invariant status != More ==> r.rest.Content() == [] && (status == Broken <==> r.rest.broken)
      decreases if status == More then 1 else 0, r.rest.Size()
    {
      var more;
      more, status := r.rest.Read(HEADER);
      data := data + more;
    }
    broken := status == Broken;
  }

  datatype Error = FileEmpty | FileTooLarge | UnsupportedMediaType | ReadFailed

  datatype Kind = PDF | DOC | DOCX

  /** A verdict without the reader. */
  datatype Verdict = Accept(name: string, kind: Kind, size: int) | Reject(error: Error)

  function Magic(kind: Kind): Str {
    match kind
    case PDF => [0x25, 0x50, 0x44, 0x46]
    case DOC => [0xD0, 0xCF, 0x11, 0xE0, 0xA1, 0xB1, 0x1A, 0xE1]
    case DOCX => [0x50, 0x4B, 0x03, 0x04]
  }

  /** The kind of file an extension with its dot, in lower case, stands for. */
  function KindOf(ext: string): (k: Kind)
    requires ext in {".pdf", ".doc", ".docx"}
  {
    if ext == ".pdf" then PDF else if ext == ".doc" then DOC else DOCX
  }

  /** The whole decision, as a function of the whole stream: how it is cut into reads plays no part. */
  function Judge(u: Unicode, filename: string, size: int, content: Str, broken: bool): Verdict {
    var name := Sanitized(u, filename);
    var ext := Lower(u, Ext(name));
    if size == 0 then Reject(FileEmpty)
    else if size > MAX_RESUME_SIZE then Reject(FileTooLarge)
    else if !IsAllowedExtension(u, ext) then Reject(UnsupportedMediaType)
    else if broken && |content| < HEADER then Reject(ReadFailed)
    else if content == [] then Reject(FileEmpty)
    else if ext !in {".pdf", ".doc", ".docx"} || !(Magic(KindOf(ext)) <= content) then Reject(UnsupportedMediaType)
    else Accept(name, KindOf(ext), size)
  }

  method ValidateResume(u: Unicode, filename: string, size: int, r: Reader?)
    returns (verdict: Verdict, reader: Option<Rejoined>)
    modifies if r == null then {} else {r}
    ensures r == null ==> verdict == Reject(FileEmpty)
    ensures r != null ==> verdict == Judge(u, filename, size, old(r.Content()), r.broken)
    ensures verdict.Accept? <==> reader.Some?
    ensures reader.Some? ==>
      r != null && reader.value.rest == r && reader.value.header + r.Content() == old(r.Content())
  {
    hide Sanitized, Ext, Lower, IsAllowedExtension, Magic, Flatten;
    if r == null || size == 0 {
      return Reject(FileEmpty), None;
    }
    if size > MAX_RESUME_SIZE {
      return Reject(FileTooLarge), None;
    }
    var sanitized := SanitizeFilename(u, filename);
    var ext := Lower(u, Ext(sanitized));
    if !IsAllowedExtension(u, ext) {
      return Reject(UnsupportedMediaType), None;
    }
    var header, failed := ReadFull(r, 512);
    if failed {
      return Reject(ReadFailed), None;
    }
    if |header| == 0 {
      return Reject(FileEmpty), None;
    }
    if ext !in {".pdf", ".doc", ".docx"} {
      return Reject(UnsupportedMediaType), None;
    }
    var kind := KindOf(ext);
    PrefixOfHeader(header, r.Content(), kind);
    if !(Magic(kind) <= header) {
      return Reject(UnsupportedMediaType), None;
    }
    return Accept(sanitized, kind, size), Some(Rejoined(header, r));
  }

  /** A signature fits in the header, so looking at the header is looking at the stream. */
  lemma PrefixOfHeader(header: Str, rest: Str, kind: Kind)
    requires rest != [] ==> |header| == HEADER
    ensures Magic(kind) <= header <==> Magic(kind) <= header + rest
  {
    var magic := Magic(kind);
    if rest == [] {
      assert header + rest == header;
    } else {
      assert (header + rest)[..|magic|] == header[..|magic|];
    }
  }

  predicate StartsWith(content: Str, signature: Str) {
    |content| >= |signature| && forall i :: 0 <= i < |signature| ==> content[i] == signature[i]
  }

  /** The signatures of PDF, of OLE compound documents and of ZIP, each with its own extension. */
  predicate Signed(ext: string, content: Str) {
    || (ext == ".pdf" && StartsWith(content, [0x25, 0x50, 0x44, 0x46]))
    || (ext == ".doc" && StartsWith(content, [0xD0, 0xCF, 0x11, 0xE0, 0xA1, 0xB1, 0x1A, 0xE1]))
    || (ext == ".docx" && StartsWith(content, [0x50, 0x4B, 0x03, 0x04]))
  }

  lemma SignedIffMagic(ext: string, content: Str)
    requires ext in {".pdf", ".doc", ".docx"}
    ensures Signed(ext, content) <==> Magic(KindOf(ext)) <= content
    ensures Signed(ext, content) ==> content != []
  {
    var magic := Magic(KindOf(ext));
    assert magic <= content <==> StartsWith(content, magic);
  }

  /**
   Exactly the streams that start with the signature of their name's extension are accepted, among
   those of at most 10 MB that do not break off within the first 512 bytes; the accepted name is safe,
   and the reported kind is that of the extension.
   */
  lemma AcceptedExactly(u: Unicode, filename: string, size: int, content: Str, broken: bool)
    requires u.Laws()
    ensures var name, v := Sanitized(u, filename), Judge(u, filename, size, content, broken);
      v.Accept? <==>
        && size != 0 && size <= 10485760
        && !(broken && |content| < 512)
        && Signed(Lower(u, Ext(name)), content)
    ensures Judge(u, filename, size, content, broken).Accept? ==>
      var name, v := Sanitized(u, filename), Judge(u, filename, size, content, broken);
      && SafeName(name) && v.name == name && v.size == size
      && v.kind == (if Lower(u, Ext(name)) == ".pdf" then PDF else if Lower(u, Ext(name)) == ".doc" then DOC else DOCX)
  {
    hide Sanitized, Ext, SafeName, Signed, Magic, IsAllowedExtension, Lower;
    var name := Sanitized(u, filename);
    var ext := Lower(u, Ext(name));
    AllowedExtensions(u, Ext(name));
    if ext in {".pdf", ".doc", ".docx"} {
      SignedIffMagic(ext, content);
      AcceptedIsSafe(u, filename);
    } else {
      NotSigned(ext, content);
    }
  }

  lemma NotSigned(ext: string, content: Str)
    requires ext !in {".pdf", ".doc", ".docx"}
    ensures !Signed(ext, content)
  {
  }

  /** Why a resume is refused: the first of these that holds. */
  lemma RefusedExactly(u: Unicode, filename: string, size: int, content: Str, broken: bool)
    requires u.Laws()
    ensures var ext, v := Lower(u, Ext(Sanitized(u, filename))), Judge(u, filename, size, content, broken);
      v.Accept? || v == Reject(
        if size == 0 then FileEmpty
        else if size > 10485760 then FileTooLarge
        else if ext !in {".pdf", ".doc", ".docx"} then UnsupportedMediaType
        else if broken && |content| < 512 then ReadFailed
        else if |content| == 0 then FileEmpty
        else UnsupportedMediaType)
  {
    hide Sanitized, Ext, Magic, IsAllowedExtension, Lower;
    AllowedExtensions(u, Ext(Sanitized(u, filename)));
  }

  /** Of the extensions filepath.Ext can yield, the allowed ones are the three, in any case of letters. */
  lemma AllowedExtensions(u: Unicode, e: string)
    requires u.Laws() && (e == [] || IsExtension(e))
    ensures IsAllowedExtension(u, Lower(u, e)) <==> Lower(u, e) in {".pdf", ".doc", ".docx"}
  {
    var l := Lower(u, e);
    assert Lower(u, l) == l;
    if e != [] {
      assert l[0] == '.' && Lower(u, l[1..]) == l[1..];
      assert l == ['.'] + l[1..];
      assert ['.'] + "pdf" == ".pdf" && ['.'] + "doc" == ".doc" && ['.'] + "docx" == ".docx";
      assert ".pdf"[1..] == "pdf" && ".doc"[1..] == "doc" && ".docx"[1..] == "docx";
    }
  }
}
