/** The files on OneDrive and the requests of the key/value store: length, contents, upload
    and removal. A request can also run off one of the client's buffers. */
module Drive {
  import opened Basics
  import opened DriveUrls

  // ---- the files ----

  /** A place in the drive: the names that lead to it, and what place a path names. The
      latter is up to the URL library and the service: letter case, percent-encoding, dot
      segments and colons may all make different paths name the same place. */
  type Place = seq<string>
  type Reading = string -> Place

  /** Files by their places; a place in front of a file's is a folder. */
  datatype Files = Files(held: map<Place, Bytes>, reading: Reading) {
    /** The place that the requests of a key name. */
    function Item(key: string): Place { reading(AskedPath(key)) }

    predicate Has(key: string) { Item(key) in held }

    function At(key: string): Bytes
      requires Has(key)
    {
      held[Item(key)]
    }

    predicate IsFolder(key: string) {
      Item(key) == [] || exists i :: i in held && Item(key) < i
    }

    /** Is an upload for the key one of a file at its place? Its URL has to keep its suffix,
        and no other file may be inside the place or around it. */
    predicate CanStore(key: string) {
      NoCut(key) && !IsFolder(key) && forall i :: i in held ==> !(i < Item(key))
    }

    function With(key: string, data: Bytes): Files {
      Files(held[Item(key) := data], reading)
    }

    /** A place is removed with everything inside it. */
    function Without(key: string): Files {
      Files(map i | i in held && !(Item(key) <= i) :: held[i], reading)
    }
  }

  /** Error codes as the functions return them, in an int. */
  predicate IsCode(e: int) {
    -0x8000_0000 <= e < 0
  }

  const NOT_FOUND: int := 0x8700_0194 - 0x1_0000_0000
  const OUT_OF_MEMORY: int := 0x8100_0002 - 0x1_0000_0000
  const BAD_JSON_FORMAT: int := 0x8100_0016 - 0x1_0000_0000
  const BUFFER_TOO_SMALL: int := 0x8100_0003 - 0x1_0000_0000
  const BAD_PERSISTENT_DATA: int := 0x8100_0004 - 0x1_0000_0000
  const INVALID_PERSISTENCE_FILE: int := 0x8100_0005 - 0x1_0000_0000

  predicate IsError(e: int) {
    IsCode(e) && e != NOT_FOUND
  }

  /** What ends an operation in undefined behaviour: a URL that does not fit its buffer, a
      downloaded body that does not fit its block, or an empty body, which is moved out
      with no place for its length. */
  datatype Fault = UrlTooLong | BodyTooLong | NullWrite

  // ---- what the service answers ----

  /** The answer to a request whose body is read. */
  datatype Reply = Errs(code: int) | EmptyBody | Answered {
    predicate Valid() { Errs? ==> IsError(code) }
  }

  /** A request with its token check and its client: these may fail before the URL is
      made. For a folder the service has a size, too. */
  datatype Info = Info(notSent: Option<int>, reply: Reply, folderSize: nat) {
    predicate Valid() { (notSent.Some? ==> IsError(notSent.value)) && reply.Valid() }
    predicate Fine() { notSent.None? && reply.Answered? }
  }

  /** The body of a download: the file in pieces of these sizes and a rest, or whatever
      arrives before a transfer error or with a status that is not 200. */
  datatype Download = Served(sizes: seq<nat>) | Page(chunks: seq<Bytes>, code: int) {
    predicate Valid() { Page? ==> IsError(code) }
  }

  datatype Fetch = Fetch(info: Info, download: Download) {
    predicate Valid() { info.Valid() && download.Valid() }
    predicate Fine() { info.Fine() && download.Served? }
  }

  /** An upload: of more than four megabytes the folder and the session come first. A
      failed one may have been carried out all the same. `stray` is the result of one that
      is none, because its URL has lost its suffix or no file can be at its place. */
  datatype Upload = Upload(
    notSent: Option<int>, folder: Option<int>, session: Reply, put: Option<(int, bool)>, stray: int)
  {
    predicate Valid() {
      && (notSent.Some? ==> IsCode(notSent.value)) && (folder.Some? ==> IsCode(folder.value))
      && (session.Errs? ==> IsCode(session.code)) && (put.Some? ==> IsCode(put.value.0))
      && (stray == 0 || IsCode(stray))
    }
    predicate Fine() { notSent.None? && folder.None? && session.Answered? && put.None? }
  }

  /** A removal; the service says "not found" of absent files only. */
  datatype Removal = Removal(notSent: Option<int>, outcome: Option<(int, bool)>) {
    predicate Valid() {
      (notSent.Some? ==> IsError(notSent.value)) && (outcome.Some? ==> IsError(outcome.value.0))
    }
    predicate Fine() { notSent.None? && outcome.None? }
  }

  // ---- length and contents ----

  /** __get_file_length: a length or a negative error. */
  datatype Measured = Size(n: int) | Lost(fault: Fault)

  function FileLength(files: Files, key: string, a: Info): Measured {
    if a.notSent.Some? then Size(a.notSent.value)
    else if !UrlFits(PathOf(key), PLAIN) then Lost(UrlTooLong)
    else match a.reply
      case Errs(code) => Size(code)
      case EmptyBody => Lost(NullWrite)
      case Answered =>
        Size(if files.Has(key) then |files.At(key)| else if files.IsFolder(key) then a.folderSize else NOT_FOUND)
  }

  function Pieces(file: Bytes, sizes: seq<nat>): seq<Bytes> {
    if sizes == [] then [file]
    else
      var n := Min(sizes[0], |file|);
      [file[..n]] + Pieces(file[n..], sizes[1..])
  }

  lemma {:induction false} PiecesAreFile(file: Bytes, sizes: seq<nat>)
    ensures Flat(Pieces(file, sizes)) == file
  {
    if sizes == [] {
      assert Flat([file]) == file + Flat([]);
    } else {
      var n := Min(sizes[0], |file|);
      PiecesAreFile(file[n..], sizes[1..]);
      assert ([file[..n]] + Pieces(file[n..], sizes[1..]))[1..] == Pieces(file[n..], sizes[1..]);
    }
  }

  /** __get_file_to_buffer: what it returns and the bytes it has copied by then. There is no
      download URL for a folder. */
  datatype Filled = Filled(n: int, data: Bytes) | Overrun(fault: Fault)

  function FileRead(files: Files, key: string, room: nat, buflen: nat, f: Fetch): Filled
    requires f.Valid()
  {
    match FileLength(files, key, f.info)
    case Lost(fault) => Overrun(fault)
    case Size(n) =>
      if n < 0 then Filled(n, [])
      else if !files.Has(key) then Filled(BAD_JSON_FORMAT, [])
      else if n > buflen > 0 then Filled(BUFFER_TOO_SMALL, [])
      else if n == 0 then Filled(0, [])
      else
        var body := if f.download.Served? then files.At(key) else Flat(f.download.chunks);
        if |body| > room then Overrun(BodyTooLong)
        else Filled(if f.download.Served? then n else f.download.code, body)
  }

  /** The chunks that arrive in a block. */
  datatype Copied = Copied(length: nat) | Beyond

  /** __download_file_response_body_callback, chunk after chunk: nothing in it compares
      what arrives with the block, which is overrun exactly when the body is longer. */
  method CopyChunks(buf: array<byte>, chunks: seq<Bytes>) returns (r: Copied)
    modifies buf
    ensures r.Beyond? <==> |Flat(chunks)| > buf.Length
    ensures r.Copied? ==> r.length == |Flat(chunks)| && buf[..r.length] == Flat(chunks)
    ensures r.Copied? ==> buf[r.length..] == old(buf[r.length..])
  {
    var at: nat, k := 0, 0;
    assert chunks[0..] == chunks;
    while k < |chunks|
      invariant k <= |chunks| && at <= buf.Length
      invariant Flat(chunks) == buf[..at] + Flat(chunks[k..])
      invariant buf[at..] == old(buf[at..])
    {
      var chunk := chunks[k];
      assert chunks[k..][0] == chunk && chunks[k..][1..] == chunks[k + 1..];
      ghost var done, behind := buf[..at], buf[at..];
      assert Flat(chunks) == done + (chunk + Flat(chunks[k + 1..])) == (done + chunk) + Flat(chunks[k + 1..]);
      if |chunk| > buf.Length - at { return Beyond; }
      forall i | 0 <= i < |chunk| { buf[at + i] := chunk[i]; }
      assert buf[..at + |chunk|] == done + chunk;
      assert buf[at + |chunk|..] == behind[|chunk|..] == old(buf[at..])[|chunk|..];
      at, k := at + |chunk|, k + 1;
    }
    assert Flat(chunks[k..]) == [];
    return Copied(at);
  }

  /** __get_file_to_buffer, into a block that may have room behind the file. */
  method ReadFile(files: Files, key: string, buf: array<byte>, buflen: nat, f: Fetch)
    returns (n: int, fault: Option<Fault>)
    requires f.Valid()
    modifies buf
    ensures match FileRead(files, key, buf.Length, buflen, f)
            case Overrun(why) => fault == Some(why)
            case Filled(m, data) =>
              && fault == None && n == m && |data| <= buf.Length
              && buf[..|data|] == data && buf[|data|..] == old(buf[|data|..])
  {
    hide UrlFits;
    n, fault := 0, None;
    var length := FileLength(files, key, f.info);
    if length.Lost? { return 0, Some(length.fault); }
    n := length.n;
    if n < 0 { return; }
    if !files.Has(key) { return BAD_JSON_FORMAT, None; }
    if n > buflen > 0 { return BUFFER_TOO_SMALL, None; }
    if n == 0 { return; }
    var chunks := if f.download.Served? then Pieces(files.At(key), f.download.sizes) else f.download.chunks;
    if f.download.Served? { PiecesAreFile(files.At(key), f.download.sizes); }
    var copied := CopyChunks(buf, chunks);
    if copied.Beyond? { return 0, Some(BodyTooLong); }
    if f.download.Page? { n := f.download.code; }
  }

  // ---- changes ----

  /** The files after an operation, what the caller is told, and whether it took place at
      the service; or an operation that never gets that far. */
  datatype Done = Done(files: Files, code: int, took: bool) | Broken(fault: Fault)

  const SMALL_UPLOAD: nat := 4 * 1024 * 1024

  function Stored(files: Files, key: string, data: Bytes, u: Upload): Done {
    if !files.CanStore(key) then Done(files, u.stray, false)
    else match u.put
      case None => Done(files.With(key, data), 0, true)
      case Some((e, applied)) => if applied then Done(files.With(key, data), e, true) else Done(files, e, false)
  }

  /** __put_file_from_buffer. */
  function Uploaded(files: Files, key: string, data: Bytes, u: Upload): Done {
    var path := PathOf(key);
    if u.notSent.Some? then Done(files, u.notSent.value, false)
    else if |data| <= SMALL_UPLOAD then
      if UrlFits(path, CONTENT) then Stored(files, key, data, u) else Broken(UrlTooLong)
    else if !FolderUrlFits(path) then Broken(UrlTooLong)
    else if u.folder.Some? then Done(files, u.folder.value, false)
    else if !UrlFits(path, SESSION) then Broken(UrlTooLong)
    else match u.session
      case Errs(code) => Done(files, code, false)
      case EmptyBody => Broken(NullWrite)
      case Answered => Stored(files, key, data, u)
  }

  /** __delete_file; that the file was absent is no error of delete_key. */
  function Removed(files: Files, key: string, r: Removal): Done {
    if r.notSent.Some? then Done(files, r.notSent.value, false)
    else if !UrlFits(PathOf(key), REMOVE) then Broken(UrlTooLong)
    else match r.outcome
      case None => Done(files.Without(key), 0, true)
      case Some((e, applied)) => if applied then Done(files.Without(key), e, true) else Done(files, e, false)
  }

  // ---- when a request runs off a buffer ----

  predicate LengthBreaks(key: string, i: Info) {
    i.notSent.None? && (|key| > LONGEST_READ || i.reply.EmptyBody?)
  }

  predicate ReadBreaks(files: Files, key: string, room: nat, f: Fetch) {
    || LengthBreaks(key, f.info)
    || (f.info.Fine() && files.Has(key) && files.At(key) != [] && f.download.Page? && |Flat(f.download.chunks)| > room)
  }

  predicate UploadBreaks(key: string, size: nat, u: Upload) {
    u.notSent.None? &&
    if size <= SMALL_UPLOAD then |key| > LONGEST_UPLOAD
    else !FolderUrlFits(PathOf(key)) || (u.folder.None? && (|key| > LONGEST_SESSION || u.session.EmptyBody?))
  }

  lemma LengthBreaksIff(files: Files, key: string, i: Info)
    ensures FileLength(files, key, i).Lost? <==> LengthBreaks(key, i)
  {
    hide PathOf, UrlFits;
    UrlFitsIff(key);
  }

  /** A download into a block with room for the file breaks in these cases only. */
  lemma ReadBreaksIff(files: Files, key: string, room: nat, buflen: nat, f: Fetch)
    requires f.Valid() && 0 < buflen <= room && (files.Has(key) ==> |files.At(key)| <= buflen)
    ensures FileRead(files, key, room, buflen, f).Overrun? <==> ReadBreaks(files, key, room, f)
  {
    hide PathOf, UrlFits, Files.Item, Files.IsFolder;
    UrlFitsIff(key);
  }

  lemma UploadBreaksIff(files: Files, key: string, data: Bytes, u: Upload)
    ensures Uploaded(files, key, data, u).Broken? <==> UploadBreaks(key, |data|, u)
  {
    hide PathOf, UrlFits, FolderUrlFits, Files.CanStore;
    UrlFitsIff(key);
  }

  lemma RemovalBreaksIff(files: Files, key: string, r: Removal)
    ensures Removed(files, key, r).Broken? <==> r.notSent.None? && |key| > LONGEST_REMOVE
  {
    hide PathOf, UrlFits;
    UrlFitsIff(key);
  }
}
