/**
 The framing of scripts/proposal-content-digest.py before SHA-256: a list of named files,
 each present or absent, becomes one stream. An approval binds to the reviewed bytes only
 if the stream determines them. A byte is written as the character of its code.
 */
module DigestFraming {
  import opened Wrappers
  import opened Text
  import opened Seqs

  /** The size line of a file, and its bytes. */
  function Size(file: Option<string>): string {
    if file.None? then ['-'] else Digits(|file.value|)
  }

  function Bytes(file: Option<string>): string {
    if file.None? then "" else file.value
  }

  function Header(name: string, size: string): string {
    name + ['\n'] + size + ['\n']
  }

  /** What the digest is fed for one file. */
  function Frame(name: string, file: Option<string>): string {
    Header(name, Size(file)) + Bytes(file)
  }

  /** The whole stream, file by file. */
  function Framed(names: seq<string>, files: seq<Option<string>>): string
    requires |names| == |files|
  {
    if names == [] then ""
    else Framed(names[..|names| - 1], files[..|names| - 1]) + Frame(names[|names| - 1], files[|names| - 1])
  }

  // ---------------------------------------------------------------- the digest

  /** hashlib's running object: the bytes it has been fed. */
  class Hasher {
    var fed: string

    constructor ()
      ensures fed == ""
    {
      fed := "";
    }

    method Update(data: string)
      modifies this
      ensures fed == old(fed) + data
    {
      fed := fed + data;
    }
  }

  lemma FramedNext(names: seq<string>, files: seq<Option<string>>, i: nat)
    requires i < |names| == |files|
    ensures Framed(names[..i + 1], files[..i + 1]) == Framed(names[..i], files[..i]) + Frame(names[i], files[i])
  {
    NextOfFirst(names, i);
    NextOfFirst(files, i);
    AfterFirst(names[..i], [names[i]]);
    AfterFirst(files[..i], [files[i]]);
  }

  /** digest(), over the hash function `sha`. */
  method Digest(sha: string -> string, names: seq<string>, files: seq<Option<string>>) returns (digest: string)
    requires |names| == |files|
    ensures digest == "sha256:" + sha(Framed(names, files))
  {
    var h := new Hasher();
    for i := 0 to |names|
      invariant h.fed == Framed(names[..i], files[..i])
    {
      FramedNext(names, files, i);
      Regroup(h.fed, Header(names[i], Size(files[i])), Bytes(files[i]));
      NothingAdded(h.fed + Header(names[i], Size(files[i])));
      match files[i]
      case None =>
        h.Update(Header(names[i], ['-']));
      case Some(data) =>
        h.Update(Header(names[i], Digits(|data|)));
        h.Update(data);
    }
    assert names[..|names|] == names && files[..|names|] == files;
    digest := "sha256:" + sha(h.fed);
  }

  // ---------------------------------------------------------------- reading the stream back

  /** The two lines at the head of the stream that belong to this name, and what follows them. */
  function ReadHeader(name: string, stream: string): Option<(string, string)> {
    if !(name <= stream && |stream| > |name| && stream[|name|] == '\n') then None
    else
      var body := stream[|name| + 1..];
      var end := Index(body, '\n');
      if end == |body| then None else Some((body[..end], body[end + 1..]))
  }

  function ReadBytes(size: string, rest: string): Option<(Option<string>, string)> {
    if size == ['-'] then Some((None, rest))
    else if IsNumeral(size) && Value(size) <= |rest| then Some((Some(rest[..Value(size)]), rest[Value(size)..]))
    else None
  }

  /** The frame of that name at the head of the stream, and what follows it. */
  function ReadFrame(name: string, stream: string): Option<(Option<string>, string)> {
    match ReadHeader(name, stream)
    case None => None
    case Some((size, rest)) => ReadBytes(size, rest)
  }

  function ReadFrames(names: seq<string>, stream: string): Option<(seq<Option<string>>, string)>
    decreases |names|
  {
    if names == [] then Some(([], stream))
    else match ReadFrame(names[0], stream)
      case None => None
      case Some((file, rest)) =>
        match ReadFrames(names[1..], rest)
        case None => None
        case Some((files, last)) => Some(([file] + files, last))
  }

  lemma HeaderIsRead(name: string, size: string, rest: string)
    requires '\n' !in size
    ensures ReadHeader(name, Header(name, size) + rest) == Some((size, rest))
  {
    var stream := Header(name, size) + rest;
    var body := size + ['\n'] + rest;
    assert stream[|name| + 1..] == body;
    assert body[|size|] == '\n' && body[..|size|] == size && body[|size| + 1..] == rest;
    assert forall j :: 0 <= j < |size| ==> body[j] == size[j];
    assert Index(body, '\n') == |size|;
  }

  lemma ReadIsAHeader(name: string, stream: string)
    requires ReadHeader(name, stream).Some?
    ensures stream == Header(name, ReadHeader(name, stream).value.0) + ReadHeader(name, stream).value.1
  {
    var body := stream[|name| + 1..];
    var end := Index(body, '\n');
    assert body == body[..end] + ['\n'] + body[end + 1..];
    assert stream == name + ['\n'] + body;
  }

  lemma BytesAreRead(file: Option<string>, rest: string)
    ensures '\n' !in Size(file) && ReadBytes(Size(file), Bytes(file) + rest) == Some((file, rest))
  {
    if file.Some? {
      DigitsAreANumeral(|file.value|);
    } else {
      assert Bytes(file) + rest == rest;
    }
  }

  lemma ReadAreBytes(size: string, rest: string)
    requires ReadBytes(size, rest).Some?
    ensures size == Size(ReadBytes(size, rest).value.0)
    ensures rest == Bytes(ReadBytes(size, rest).value.0) + ReadBytes(size, rest).value.1
  {
    if size != ['-'] {
      NumeralIsPrinted(size);
    }
  }

  /** A frame is read back, whatever its bytes and whatever follows it. */
  lemma FrameIsRead(name: string, file: Option<string>, rest: string)
    ensures ReadFrame(name, Frame(name, file) + rest) == Some((file, rest))
  {
    BytesAreRead(file, rest);
    HeaderIsRead(name, Size(file), Bytes(file) + rest);
    Regroup(Header(name, Size(file)), Bytes(file), rest);
  }

  /** What is read as a frame is that frame. */
  lemma ReadIsAFrame(name: string, stream: string)
    requires ReadFrame(name, stream).Some?
    ensures stream == Frame(name, ReadFrame(name, stream).value.0) + ReadFrame(name, stream).value.1
  {
    var (size, rest) := ReadHeader(name, stream).value;
    ReadIsAHeader(name, stream);
    ReadAreBytes(size, rest);
  }

  lemma MiddleOf<T>(s: seq<T>)
    requires |s| > 1
    ensures s[..|s| - 1][1..] == s[1..][..|s| - 2]
  {
  }

  lemma {:induction false} FramedFront(names: seq<string>, files: seq<Option<string>>)
    requires |names| == |files| > 0
    ensures Framed(names, files) == Frame(names[0], files[0]) + Framed(names[1..], files[1..])
  {
    var n := |names| - 1;
    if n == 0 {
      assert Framed(names[..0], files[..0]) == "" && Framed(names[1..], files[1..]) == "";
      NothingAdded(Frame(names[0], files[0]));
    } else {
      FramedFront(names[..n], files[..n]);
      MiddleOf(names);
      MiddleOf(files);
      Regroup(Frame(names[0], files[0]), Framed(names[..n][1..], files[..n][1..]), Frame(names[n], files[n]));
    }
  }

  lemma StreamFront(names: seq<string>, files: seq<Option<string>>, rest: string)
    requires |names| == |files| > 0
    ensures Framed(names, files) + rest == Frame(names[0], files[0]) + (Framed(names[1..], files[1..]) + rest)
  {
    FramedFront(names, files);
    Regroup(Frame(names[0], files[0]), Framed(names[1..], files[1..]), rest);
  }

  lemma ReadOn(names: seq<string>, stream: string, file: Option<string>, tail: string, files: seq<Option<string>>, last: string)
    requires names != [] && ReadFrame(names[0], stream) == Some((file, tail))
    requires ReadFrames(names[1..], tail) == Some((files, last))
    ensures ReadFrames(names, stream) == Some(([file] + files, last))
  {
  }

  /** Every file's presence and bytes are recovered from the stream, followed by anything. */
  lemma {:induction false} StreamIsRead(names: seq<string>, files: seq<Option<string>>, rest: string)
    requires |names| == |files|
    ensures ReadFrames(names, Framed(names, files) + rest) == Some((files, rest))
    decreases |names|
  {
    if names == [] {
      assert Framed(names, files) + rest == rest;
    } else {
      StreamFront(names, files, rest);
      var tail := Framed(names[1..], files[1..]) + rest;
      FrameIsRead(names[0], files[0], tail);
      StreamIsRead(names[1..], files[1..], rest);
      ReadOn(names, Frame(names[0], files[0]) + tail, files[0], tail, files[1..], rest);
      assert [files[0]] + files[1..] == files;
    }
  }

  /** The reader accepts the framed streams and no others. */
  lemma {:induction false} ReadIsFramed(names: seq<string>, stream: string)
    returns (files: seq<Option<string>>, rest: string)
    requires ReadFrames(names, stream).Some?
    ensures ReadFrames(names, stream) == Some((files, rest))
    ensures |files| == |names| && stream == Framed(names, files) + rest
    decreases |names|
  {
    if names == [] {
      files, rest := [], stream;
    } else {
      var (file, tail) := ReadFrame(names[0], stream).value;
      ReadIsAFrame(names[0], stream);
      files, rest := ReadIsFramed(names[1..], tail);
      ReadOn(names, stream, file, tail, files, rest);
      files := [file] + files;
      StreamFront(names, files, rest);
    }
  }

  // ---------------------------------------------------------------- what a digest binds

  /** Injective, and no stream is the beginning of another. */
  lemma FramingIsPrefixFree(
    names: seq<string>, files: seq<Option<string>>, others: seq<Option<string>>, rest: string, tail: string)
    requires |names| == |files| == |others|
    requires Framed(names, files) + rest == Framed(names, others) + tail
    ensures files == others && rest == tail
  {
    StreamIsRead(names, files, rest);
    StreamIsRead(names, others, tail);
  }

  /** Two proposals with one digest are the same files, or a collision of the hash function. */
  lemma DigestBindsTheFiles(sha: string -> string, names: seq<string>, files: seq<Option<string>>, others: seq<Option<string>>)
    requires |names| == |files| == |others|
    requires "sha256:" + sha(Framed(names, files)) == "sha256:" + sha(Framed(names, others))
    ensures sha(Framed(names, files)) == sha(Framed(names, others))
    ensures files == others || Framed(names, files) != Framed(names, others)
  {
    var (a, b) := ("sha256:" + sha(Framed(names, files)), "sha256:" + sha(Framed(names, others)));
    assert a[7..] == sha(Framed(names, files)) && b[7..] == sha(Framed(names, others));
    if Framed(names, files) == Framed(names, others) {
      assert Framed(names, files) + "" == Framed(names, others) + "";
      FramingIsPrefixFree(names, files, others, "", "");
    }
  }
}
