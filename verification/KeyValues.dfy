/** The key/value store on OneDrive: one file of records a key, appended, replaced, read
    and deleted by put_value, set_value, get_values and delete_key. */
module KeyValues {
  import opened Basics
  import opened DriveUrls
  import opened Drive
  import opened Records

  // ---- result codes as the functions return them, in an int ----

  /** (int) of a wider number. */
  function AsInt(n: int): (i: int)
    ensures -0x8000_0000 <= i < 0x8000_0000
  {
    (n + 0x8000_0000) % UINT_RANGE - 0x8000_0000
  }

  /** The one file length, modulo 2^32, that looks like the error "not found". */
  const LOST_LENGTH: nat := 0x8700_0194

  /** A length is taken for "not found" exactly in one case, an error never, and it goes
      through an int unchanged. */
  lemma LengthReads(n: nat, e: int)
    ensures AsInt(n) == NOT_FOUND <==> n % UINT_RANGE == LOST_LENGTH
    ensures IsError(e) ==> AsInt(e) == e
    ensures AsInt(NOT_FOUND) == NOT_FOUND
  {
  }

  // ---- one operation ----

  predicate IsValue(v: Bytes) {
    1 <= |v| <= MAX_VALUE
  }

  /** What the service and the system answer during one operation: to the request for the
      length, for a block of memory, to the download, to the upload and to the removal. */
  datatype Answers = Answers(length: Info, memory: bool, fetch: Fetch, upload: Upload, removal: Removal) {
    predicate Valid() { length.Valid() && fetch.Valid() && upload.Valid() && removal.Valid() }

    /** Everything is answered as it should be. */
    predicate Fine() { length.Fine() && memory && fetch.Fine() && upload.Fine() && removal.Fine() }
  }

  function AfterSet(files: Files, key: string, value: Bytes, a: Answers): Done
    requires IsValue(value) && a.Valid()
  {
    if !a.memory then Done(files, OUT_OF_MEMORY, false) else Uploaded(files, key, Record(value), a.upload)
  }

  /** The bytes put_value reads back before it appends, or the code it fails with. */
  datatype ReadBack = Block(data: Bytes) | Fails(code: int) | Crash(fault: Fault)

  function ReadForPut(files: Files, key: string, length: nat, a: Answers): ReadBack
    requires a.Valid()
  {
    match FileLength(files, key, a.length)
    case Lost(fault) => Crash(fault)
    case Size(n) =>
      var size := if AsInt(n) == NOT_FOUND then 0 else n;
      if size < 0 then Fails(AsInt(size))
      else if !a.memory then Fails(OUT_OF_MEMORY)
      else if size == 0 then Block([])
      else match FileRead(files, key, size + WORD + length, size, a.fetch)
        case Overrun(fault) => Crash(fault)
        case Filled(m, data) =>
          if AsInt(m) < 0 then Fails(AsInt(m))
          else if AsInt(m) != AsInt(size) then Fails(INVALID_PERSISTENCE_FILE)
          else Block(data)
  }

  function AfterPut(files: Files, key: string, value: Bytes, a: Answers): Done
    requires IsValue(value) && a.Valid()
  {
    match ReadForPut(files, key, |value|, a)
    case Crash(fault) => Broken(fault)
    case Fails(code) => Done(files, code, false)
    case Block(data) => Uploaded(files, key, data + Record(value), a.upload)
  }

  function AfterDelete(files: Files, key: string, a: Answers): Done
    requires a.Valid()
  {
    Removed(files, key, a.removal)
  }

  datatype Got = Got(code: int, delivered: seq<Bytes>) | Crashed(fault: Fault)

  function Gotten(files: Files, key: string, wants: Callback, a: Answers): Got
    requires a.Valid()
  {
    match FileLength(files, key, a.length)
    case Lost(fault) => Crashed(fault)
    case Size(n) =>
      var dataLen := if AsInt(n) == NOT_FOUND then 0 else n;
      if dataLen < 0 then Got(AsInt(dataLen), [])
      else if 0 < dataLen <= WORD then Got(BAD_PERSISTENT_DATA, [])
      else if dataLen == 0 then Got(0, [])
      else if !a.memory then Got(OUT_OF_MEMORY, [])
      else match FileRead(files, key, dataLen, dataLen, a.fetch)
        case Overrun(fault) => Crashed(fault)
        case Filled(m, data) =>
          if m < 0 then Got(AsInt(m), [])
          else if m != dataLen then Got(INVALID_PERSISTENCE_FILE, [])
          else
            var r := Scan(data, wants, []);
            Got(if r.ok then 0 else BAD_PERSISTENT_DATA, r.delivered)
  }

  // ---- in place ----

  class KeyStore {
    var files: Files
    const little: bool

    constructor (reading: Reading, little: bool)
      ensures files == Files(map[], reading) && this.little == little
    {
      files, this.little := Files(map[], reading), little;
    }

    /** The header and value of a record at the end of a block. */
    method WriteRecord(buf: array<byte>, at: nat, value: Bytes)
      requires IsValue(value) && at + WORD + |value| == buf.Length
      modifies buf
      ensures buf[..] == old(buf[..at]) + Record(value)
    {
      hide BigEndian, FromBigEndian, Swapped, Store, SwapOrder, Load;
      ghost var front := buf[..at];
      var w := SwapOrder(|value|, little);
      NetworkOrder([0, 0, 0, 0], |value|, little);
      StoreWord(buf, at, w, little);
      assert buf[..at + WORD] == front + BigEndian(|value|);
      forall i | 0 <= i < |value| { buf[at + WORD + i] := value[i]; }
      assert buf[at + WORD..] == value;
      assert buf[..at + WORD] == front + BigEndian(|value|);
      assert buf[..] == buf[..at + WORD] + buf[at + WORD..];
    }

    /** A change of the files, or the fault that comes before it. */
    method Take(done: Done) returns (code: int, fault: Option<Fault>)
      modifies `files
      ensures match done
              case Broken(why) => fault == Some(why) && files == old(files)
              case Done(after, c, _) => fault == None && code == c && files == after
    {
      match done
      case Broken(why) => return 0, Some(why);
      case Done(after, c, _) =>
        files := after;
        return c, None;
    }

    method PutValue(key: string, value: Bytes, a: Answers) returns (code: int, fault: Option<Fault>)
      requires IsValue(value) && a.Valid()
      modifies `files
      ensures match AfterPut(old(files), key, value, a)
              case Broken(why) => fault == Some(why) && files == old(files)
              case Done(after, c, _) => fault == None && code == c && files == after
    {
      hide Record, AsInt, FileLength, FileRead, Uploaded;
      var length := FileLength(files, key, a.length);
      if length.Lost? { return 0, Some(length.fault); }
      var size := if AsInt(length.n) == NOT_FOUND then 0 else length.n;
      if size < 0 { return AsInt(size), None; }
      if !a.memory { return OUT_OF_MEMORY, None; }
      var buf := new byte[size + WORD + |value|](_ => 0);
      if size > 0 {
        var rc;
        rc, fault := ReadFile(files, key, buf, size, a.fetch);
        if fault.Some? { return 0, fault; }
        if AsInt(rc) < 0 { return AsInt(rc), None; }
        if AsInt(rc) != AsInt(size) { return INVALID_PERSISTENCE_FILE, None; }
        ReadIsWhole(files, key, a, size, rc);
      }
      WriteRecord(buf, size, value);
      code, fault := Take(Uploaded(files, key, buf[..], a.upload));
    }

    method SetValue(key: string, value: Bytes, a: Answers) returns (code: int, fault: Option<Fault>)
      requires IsValue(value) && a.Valid()
      modifies `files
      ensures match AfterSet(old(files), key, value, a)
              case Broken(why) => fault == Some(why) && files == old(files)
              case Done(after, c, _) => fault == None && code == c && files == after
    {
      hide Record, Uploaded;
      if !a.memory { return OUT_OF_MEMORY, None; }
      var kv := new byte[WORD + |value|](_ => 0);
      WriteRecord(kv, 0, value);
      assert kv[..] == Record(value);
      code, fault := Take(Uploaded(files, key, kv[..], a.upload));
    }

    method GetValues(key: string, wants: Callback, a: Answers) returns (r: Got)
      requires a.Valid()
      ensures r == Gotten(files, key, wants, a)
    {
      hide Scan, AsInt, FileLength, FileRead;
      var length := FileLength(files, key, a.length);
      if length.Lost? { return Crashed(length.fault); }
      var dataLen := if AsInt(length.n) == NOT_FOUND then 0 else length.n;
      if dataLen < 0 { return Got(AsInt(dataLen), []); }
      if 0 < dataLen <= WORD { return Got(BAD_PERSISTENT_DATA, []); }
      if dataLen == 0 { return Got(0, []); }
      if !a.memory { return Got(OUT_OF_MEMORY, []); }
      var buf := new byte[dataLen](_ => 0);
      var rc, fault := ReadFile(files, key, buf, dataLen, a.fetch);
      if fault.Some? { return Crashed(fault.value); }
      if rc < 0 { return Got(AsInt(rc), []); }
      if rc != dataLen { return Got(INVALID_PERSISTENCE_FILE, []); }
      ReadIsAll(files, key, a, dataLen, rc);
      assert buf[..] == FileRead(files, key, dataLen, dataLen, a.fetch).data;
      var scanned := Iterate(buf, little, wants);
      return Got(if scanned.ok then 0 else BAD_PERSISTENT_DATA, scanned.delivered);
    }

    method DeleteKey(key: string, a: Answers) returns (code: int, fault: Option<Fault>)
      requires a.Valid()
      modifies `files
      ensures match AfterDelete(old(files), key, a)
              case Broken(why) => fault == Some(why) && files == old(files)
              case Done(after, c, _) => fault == None && code == c && files == after
    {
      hide Removed;
      code, fault := Take(Removed(files, key, a.removal));
    }
  }

  /** A file that is read back whole fills the front of its block. */
  lemma ReadIsWhole(files: Files, key: string, a: Answers, size: nat, rc: int)
    requires a.Valid() && size > 0 && FileLength(files, key, a.length) == Size(size)
    ensures forall room: nat ::
              var r := FileRead(files, key, room, size, a.fetch);
              r.Filled? && r.n == rc && AsInt(rc) >= 0 && AsInt(rc) == AsInt(size) ==> |r.data| == size
  {
    hide UrlFits, Files.Item, Files.IsFolder;
  }

  lemma ReadIsAll(files: Files, key: string, a: Answers, size: nat, rc: int)
    requires a.Valid() && size > 0
    ensures forall room: nat ::
              var r := FileRead(files, key, room, size, a.fetch);
              r.Filled? && r.n == rc == size ==> |r.data| == size
  {
    hide UrlFits, Files.Item, Files.IsFolder;
  }

  // ---- operations ----

  datatype Op =
    | Put(key: string, value: Bytes, a: Answers)
    | Set(key: string, value: Bytes, a: Answers)
    | Delete(key: string, a: Answers)
    | Get(key: string, wants: Callback, a: Answers)

  ghost predicate ValidOp(op: Op) {
    op.a.Valid() && (op.Put? || op.Set? ==> IsValue(op.value))
  }

  ghost predicate ValidOps(ops: seq<Op>) {
    forall k :: 0 <= k < |ops| ==> ValidOp(ops[k])
  }

  function Perform(files: Files, op: Op): Done
    requires ValidOp(op)
  {
    match op
    case Put(key, value, a) => AfterPut(files, key, value, a)
    case Set(key, value, a) => AfterSet(files, key, value, a)
    case Delete(key, a) => AfterDelete(files, key, a)
    case Get(key, wants, a) =>
      match Gotten(files, key, wants, a)
      case Crashed(fault) => Broken(fault)
      case Got(code, _) => Done(files, code, false)
  }

  // ---- when an operation runs off a buffer ----

  /** The length of the file before the operation, and of the block or record it makes. */
  function LengthOf(files: Files, key: string): nat {
    if files.Has(key) then |files.At(key)| else 0
  }

  function BlockSize(files: Files, op: Op): nat {
    LengthOf(files, op.key) + if op.Put? || op.Set? then WORD + |op.value| else 0
  }

  /** The length that the service gives of what is there: a file, a folder or nothing. */
  function Reported(files: Files, key: string, i: Info): nat {
    if files.Has(key) then |files.At(key)| else if files.IsFolder(key) then i.folderSize else 0
  }

  /** That length as it is taken: one of them reads as none. */
  function TakenFor(files: Files, key: string, i: Info): nat {
    var n := Reported(files, key, i);
    if n % UINT_RANGE == LOST_LENGTH then 0 else n
  }

  predicate GetBreaks(files: Files, key: string, a: Answers) {
    var n := TakenFor(files, key, a.length);
    LengthBreaks(key, a.length) || (a.length.Fine() && a.memory && n > WORD && ReadBreaks(files, key, n, a.fetch))
  }

  predicate PutBreaks(files: Files, key: string, size: nat, a: Answers) {
    var n := TakenFor(files, key, a.length);
    || LengthBreaks(key, a.length)
    || (a.length.Fine() && a.memory &&
        if n == 0 then UploadBreaks(key, size, a.upload)
        else
          || ReadBreaks(files, key, n + size, a.fetch)
          || (a.fetch.Fine() && files.Has(key) && n % UINT_RANGE < 0x8000_0000
              && UploadBreaks(key, n + size, a.upload)))
  }

  /** What makes an operation run off a buffer, by its key, the lengths and the answers. */
  predicate Breaks(files: Files, op: Op) {
    match op
    case Get(key, _, a) => GetBreaks(files, key, a)
    case Put(key, value, a) => PutBreaks(files, key, WORD + |value|, a)
    case Set(key, value, a) => a.memory && UploadBreaks(key, WORD + |value|, a.upload)
    case Delete(key, a) => a.removal.notSent.None? && |key| > LONGEST_REMOVE
  }

  lemma RecordLength(v: Bytes)
    requires |v| < UINT_RANGE
    ensures |Record(v)| == WORD + |v|
  {
  }

  /** What the length request comes to when it does not break. */
  lemma LengthIs(files: Files, key: string, i: Info)
    requires i.Valid() && !LengthBreaks(key, i)
    ensures var r := FileLength(files, key, i);
            var taken := TakenFor(files, key, i);
            && r.Size?
            && (!i.Fine() ==> IsError(r.n) && AsInt(r.n) == r.n != NOT_FOUND)
            && (i.Fine() ==> (if AsInt(r.n) == NOT_FOUND then 0 else r.n) == taken)
            && (i.Fine() && taken > 0 ==> r.n == taken && AsInt(r.n) != NOT_FOUND)
            && (i.Fine() && taken > 0 && files.Has(key) ==> taken == |files.At(key)|)
  {
    hide PathOf, UrlFits, Files.Item, Files.IsFolder;
    UrlFitsIff(key);
    LengthReads(Reported(files, key, i), FileLength(files, key, i).n);
  }

  /** What is read when it does not break. */
  lemma ReadIs(files: Files, key: string, room: nat, size: nat, f: Fetch)
    requires f.Valid() && 0 < size <= room && (files.Has(key) ==> |files.At(key)| == size)
    requires !ReadBreaks(files, key, room, f)
    ensures var r := FileRead(files, key, room, size, f);
            && r.Filled?
            && (if f.Fine() && files.Has(key) then r == Filled(size, files.At(key)) else IsCode(r.n))
  {
    hide PathOf, UrlFits, Files.Item, Files.IsFolder;
    UrlFitsIff(key);
  }

  lemma GetBreaksIff(files: Files, key: string, wants: Callback, a: Answers)
    requires a.Valid()
    ensures Gotten(files, key, wants, a).Crashed? <==> GetBreaks(files, key, a)
  {
    hide AsInt, Scan, FileLength, FileRead, LengthBreaks, ReadBreaks, TakenFor, Files.Item, Files.IsFolder;
    LengthBreaksIff(files, key, a.length);
    if !LengthBreaks(key, a.length) {
      LengthIs(files, key, a.length);
      var n := TakenFor(files, key, a.length);
      if a.length.Fine() && n > 0 { ReadBreaksIff(files, key, n, n, a.fetch); }
    }
  }

  lemma PutBreaksIff(files: Files, key: string, value: Bytes, a: Answers)
    requires IsValue(value) && a.Valid()
    ensures AfterPut(files, key, value, a).Broken? <==> PutBreaks(files, key, WORD + |value|, a)
  {
    hide AsInt, Record, FileLength, FileRead, Uploaded, LengthBreaks, ReadBreaks, UploadBreaks, TakenFor;
    RecordLength(value);
    LengthBreaksIff(files, key, a.length);
    if !LengthBreaks(key, a.length) {
      LengthIs(files, key, a.length);
      var n := TakenFor(files, key, a.length);
      if a.length.Fine() {
        if n == 0 {
          assert [] + Record(value) == Record(value);
          UploadBreaksIff(files, key, Record(value), a.upload);
        } else {
          ReadBreaksIff(files, key, n + WORD + |value|, n, a.fetch);
          if !ReadBreaks(files, key, n + WORD + |value|, a.fetch) { WholeUpload(files, key, n, value, a); }
        }
      }
    }
  }

  lemma WholeUpload(files: Files, key: string, n: nat, value: Bytes, a: Answers)
    requires IsValue(value) && a.Valid() && n > 0 && (files.Has(key) ==> |files.At(key)| == n)
    requires !ReadBreaks(files, key, n + WORD + |value|, a.fetch)
    ensures var r := FileRead(files, key, n + WORD + |value|, n, a.fetch);
            && (AsInt(r.n) >= 0 && AsInt(r.n) == AsInt(n) <==>
                  a.fetch.Fine() && files.Has(key) && n % UINT_RANGE < 0x8000_0000)
            && (a.fetch.Fine() && files.Has(key) ==>
                  (Uploaded(files, key, r.data + Record(value), a.upload).Broken? <==>
                     UploadBreaks(key, n + WORD + |value|, a.upload)))
  {
    hide FileRead, Uploaded, UploadBreaks, ReadBreaks, Record, Files.Item, Files.IsFolder;
    ReadIs(files, key, n + WORD + |value|, n, a.fetch);
    RecordLength(value);
    if a.fetch.Fine() && files.Has(key) { UploadBreaksIff(files, key, files.At(key) + Record(value), a.upload); }
  }

  /** Every operation runs off a buffer exactly in these cases: a URL that does not fit, an
      empty body where one is moved out, or an error page longer than the block. */
  lemma BreaksIff(files: Files, op: Op)
    requires ValidOp(op)
    ensures Perform(files, op).Broken? <==> Breaks(files, op)
  {
    hide Record, AfterPut, Gotten, Uploaded, UploadBreaks, Removed, GetBreaks, PutBreaks;
    match op
    case Get(key, wants, a) => GetBreaksIff(files, key, wants, a);
    case Put(key, value, a) => PutBreaksIff(files, key, value, a);
    case Set(key, value, a) =>
      RecordLength(value);
      UploadBreaksIff(files, key, Record(value), a.upload);
    case Delete(key, a) => RemovalBreaksIff(files, key, a.removal);
  }

  /** The longest key whose URLs all fit. */
  function LongestKey(files: Files, op: Op): nat {
    match op
    case Get(_, _, _) => LONGEST_READ
    case Delete(_, _) => LONGEST_REMOVE
    case Set(_, _, _) => LONGEST_UPLOAD
    case Put(_, _, _) => if BlockSize(files, op) <= SMALL_UPLOAD then LONGEST_UPLOAD else LONGEST_SESSION
  }

  /** There is a file of a length that put_value handles, or nothing. */
  predicate SmallFile(files: Files, key: string) {
    LengthOf(files, key) < 0x8000_0000 && (files.IsFolder(key) ==> files.Has(key))
  }

  /** With everything answered, an operation runs off a buffer exactly when its key is
      longer than its URLs can hold. */
  lemma UrlDecides(files: Files, op: Op)
    requires ValidOp(op) && op.a.Fine() && (op.Put? ==> SmallFile(files, op.key))
    ensures Perform(files, op).Broken? <==> |op.key| > LongestKey(files, op)
  {
    hide Perform, PathOf, FolderUrlFits, Files.Item, Files.IsFolder;
    BreaksIff(files, op);
    UrlFitsIff(op.key);
    FolderFitsFirst(PathOf(op.key));
  }

  /** A download that fails on the way or with an error page runs off the block exactly
      when its body is longer than that; else its code is returned and nothing changes. */
  lemma PageDecides(files: Files, op: Op)
    requires ValidOp(op) && (op.Put? || op.Get?) && |op.key| <= LONGEST_READ
    requires op.a.length.Fine() && op.a.memory && op.a.fetch.info.Fine() && op.a.fetch.download.Page?
    requires SmallFile(files, op.key) && LengthOf(files, op.key) > WORD
    ensures var page := op.a.fetch.download;
            Perform(files, op) ==
            if |Flat(page.chunks)| > BlockSize(files, op) then Broken(BodyTooLong) else Done(files, page.code, false)
  {
    hide PathOf, UrlFits, Record, Scan, Uploaded, Files.Item, Files.IsFolder;
    UrlFitsIff(op.key);
  }

  const FINE := Info(None, Answered, 0)
  const ALL_FINE := Answers(FINE, true, Fetch(FINE, Served([])),
                            Upload(None, None, Answered, None, 0), Removal(None, None))

  /** A key of 946 characters runs off the URL of its upload. */
  lemma OverlongKey(files: Files, value: Bytes)
    requires IsValue(value)
    ensures Perform(files, Set(seq(946, _ => 'k'), value, ALL_FINE)) == Broken(UrlTooLong)
  {
    hide PathOf, UrlFits, Record;
    RecordLength(value);
    UrlFitsIff(seq(946, _ => 'k'));
  }

  /** An error page of six bytes runs off the block of a file of five. */
  lemma OverlongPage(files: Files, wants: Callback, code: int)
    requires files.Has("k") && files.At("k") == [0, 0, 0, 1, 7] && IsError(code)
    ensures var a := ALL_FINE.(fetch := Fetch(FINE, Page([[1, 2, 3, 4, 5, 6]], code)));
            Perform(files, Get("k", wants, a)) == Broken(BodyTooLong)
  {
    hide Files.Item, Files.IsFolder;
    var a := ALL_FINE.(fetch := Fetch(FINE, Page([[1, 2, 3, 4, 5, 6]], code)));
    var page: Bytes := [1, 2, 3, 4, 5, 6];
    assert Flat([page]) == page + Flat([]);
    PageDecides(files, Get("k", wants, a));
  }

  // ---- what an upload and a removal change ----

  /** An upload with everything answered stores its data exactly where a file can be stored. */
  lemma UploadAnswered(files: Files, key: string, data: Bytes, u: Upload)
    requires u.Fine() && |key| <= (if |data| <= SMALL_UPLOAD then LONGEST_UPLOAD else LONGEST_SESSION)
    ensures Uploaded(files, key, data, u) ==
            if files.CanStore(key) then Done(files.With(key, data), 0, true) else Done(files, u.stray, false)
  {
    hide PathOf, UrlFits, FolderUrlFits, Files.CanStore, Files.With;
    UrlFitsIff(key);
    FolderFitsFirst(PathOf(key));
  }

  lemma PutReads(files: Files, key: string, length: nat, a: Answers)
    requires a.Valid() && a.Fine() && files.Has(key) && |key| <= LONGEST_READ
    ensures var r := ReadForPut(files, key, length, a);
            var n := |files.At(key)| % UINT_RANGE;
            if n < 0x8000_0000 then r == Block(files.At(key))
            else if n == LOST_LENGTH then r == Block([])
            else r.Fails? && r.code < 0
  {
    hide PathOf, UrlFits, FileLength, FileRead, Files.Item, Files.IsFolder;
    LengthIs(files, key, a.length);
    var n := |files.At(key)|;
    IntReads(n);
    if TakenFor(files, key, a.length) > 0 { ReadIs(files, key, n + WORD + length, n, a.fetch); }
  }

  lemma IntReads(n: nat)
    ensures AsInt(n) >= 0 <==> n % UINT_RANGE < 0x8000_0000
  {
  }

  /** put_value with everything answered appends its record exactly when the file's length
      fits an int and the key's requests keep their URLs whole; at one other length it drops
      the file's records, and at the rest it fails. */
  lemma PutAppendsIff(files: Files, key: string, value: Bytes, a: Answers)
    requires IsValue(value) && a.Valid() && a.Fine() && files.Has(key)
    requires |key| <= LongestKey(files, Put(key, value, a))
    ensures var done := AfterPut(files, key, value, a);
            var n := |files.At(key)| % UINT_RANGE;
            && (n < 0x8000_0000 && files.CanStore(key) <==>
                  done == Done(files.With(key, files.At(key) + Record(value)), 0, true))
            && (n == LOST_LENGTH && files.CanStore(key) ==> done == Done(files.With(key, Record(value)), 0, true))
            && (0x8000_0000 <= n != LOST_LENGTH ==> done.Done? && done.code < 0 && done.files == files)
            && (!files.CanStore(key) ==> done.Done? && done.files == files && !done.took)
  {
    hide PathOf, Record, Uploaded, ReadForPut, Files.CanStore, Files.Item;
    PutReads(files, key, |value|, a);
    RecordLength(value);
    var f, r := files.At(key), Record(value);
    UploadAnswered(files, key, f + r, a.upload);
    UploadAnswered(files, key, [] + r, a.upload);
    assert [] + r == r;
    if |f| % UINT_RANGE == LOST_LENGTH {
      assert |f + r| == |f| + |r|;
      assert files.With(key, r).held[files.Item(key)] == r;
      assert files.With(key, f + r).held[files.Item(key)] == f + r;
    }
  }

  /** The first put of a key, with everything answered, makes its file exactly where one can
      be stored, and changes nothing where it cannot. */
  lemma PutCreatesIff(files: Files, key: string, value: Bytes, a: Answers)
    requires IsValue(value) && a.Valid() && a.Fine()
    requires |key| <= LONGEST_UPLOAD && !files.Has(key) && !files.IsFolder(key)
    ensures AfterPut(files, key, value, a) ==
            if files.CanStore(key) then Done(files.With(key, Record(value)), 0, true)
            else Done(files, a.upload.stray, false)
  {
    hide PathOf, UrlFits, Record, Uploaded, Files.CanStore, Files.With, Files.Item, Files.IsFolder;
    UrlFitsIff(key);
    RecordLength(value);
    assert [] + Record(value) == Record(value);
    UploadAnswered(files, key, Record(value), a.upload);
  }

  /** Whatever is answered, a put, set or deletion that reports success has done its work,
      unless no file can be stored at its place; then it has done nothing. No request of it
      has failed. */
  lemma ZeroMeansDone(files: Files, op: Op)
    requires ValidOp(op) && !op.Get?
    requires Perform(files, op).Done? && Perform(files, op).code == 0
    ensures if op.Delete? then op.a.removal.Fine()
            else op.a.memory && op.a.upload.notSent.None? && (files.CanStore(op.key) ==> op.a.upload.put.None?)
    ensures var done := Perform(files, op);
            match op
            case Delete(key, _) => done == Done(files.Without(key), 0, true)
            case Set(key, value, _) =>
              if files.CanStore(key) then done == Done(files.With(key, Record(value)), 0, true)
              else done == Done(files, 0, false)
            case Put(key, value, _) =>
              if !files.CanStore(key) then done == Done(files, 0, false)
              else if !files.Has(key) then done == Done(files.With(key, Record(value)), 0, true)
              else if LengthOf(files, key) < 0x8000_0000 then
                done == Done(files.With(key, files.At(key) + Record(value)), 0, true)
              else done.took
  {
    hide Record, Uploaded, ReadForPut, PathOf, UrlFits, Files.CanStore, Files.With, Files.Item, Files.IsFolder;
    match op
    case Delete(key, a) =>
    case Set(key, value, a) => ZeroMeansStored(files, key, Record(value), a.upload);
    case Put(key, value, a) =>
      ReadBackIs(files, key, |value|, a);
      var r := ReadForPut(files, key, |value|, a);
      if r.Block? {
        assert [] + Record(value) == Record(value);
        ZeroMeansStored(files, key, r.data + Record(value), a.upload);
      }
  }

  lemma ZeroMeansStored(files: Files, key: string, data: Bytes, u: Upload)
    requires u.Valid()
    ensures var done := Uploaded(files, key, data, u);
            done.Done? && done.code == 0 ==>
              && done == (if files.CanStore(key) then Done(files.With(key, data), 0, true) else Done(files, 0, false))
              && u.notSent.None? && (files.CanStore(key) ==> u.put.None?)
  {
    hide PathOf, UrlFits, FolderUrlFits, Files.CanStore, Files.With;
  }

  /** What put_value reads back is the file of a small length, or nothing where none can be. */
  lemma ReadBackIs(files: Files, key: string, length: nat, a: Answers)
    requires a.Valid()
    ensures var r := ReadForPut(files, key, length, a);
            && (r.Fails? ==> r.code < 0) && (r.Block? ==> a.memory)
            && (r.Block? && files.Has(key) && LengthOf(files, key) < 0x8000_0000 ==> r.data == files.At(key))
            && (r.Block? && !files.Has(key) ==> r.data == [])
  {
    hide PathOf, UrlFits, Files.Item, Files.IsFolder;
  }

  /** set_value with everything answered stores its record exactly for a key with no question
      mark and no hash, at a place that no other file is inside or around. */
  lemma SetStoresIff(files: Files, key: string, value: Bytes, a: Answers)
    requires IsValue(value) && a.Valid() && a.Fine() && |key| <= LONGEST_UPLOAD
    ensures AfterSet(files, key, value, a) ==
            if files.CanStore(key) then Done(files.With(key, Record(value)), 0, true)
            else Done(files, a.upload.stray, false)
  {
    hide Record, Files.CanStore, Files.With, Uploaded;
    RecordLength(value);
    UploadAnswered(files, key, Record(value), a.upload);
  }

  /** Deleting a key removes every file whose place is its own or inside it, and no other. */
  lemma DeleteReaches(files: Files, key: string, other: string, a: Answers)
    requires a.Valid() && a.Fine() && |key| <= LONGEST_REMOVE && files.Has(other)
    ensures var done := AfterDelete(files, key, a);
            && done.Done? && done.code == 0
            && (done.files.Has(other) <==> !(files.Item(key) <= files.Item(other)))
            && (done.files.Has(other) ==> done.files.At(other) == files.At(other))
  {
    hide PathOf, UrlFits, AskedPath;
    UrlFitsIff(key);
  }

  /** So deleting a key of three characters removes another key, whatever the service makes
      of paths: the URL ends in front of the hash. */
  lemma DeletesAnother(files: Files)
    requires files.Has("a")
    ensures var done := AfterDelete(files, "a#1", ALL_FINE);
            done.Done? && done.code == 0 && !done.files.Has("a")
  {
    assert "a" + ['#'] + "1" == "a#1";
    TailIsCutOff("a", '#', "1");
    hide AskedPath, Removed;
    DeleteReaches(files, "a#1", "a", ALL_FINE);
  }

  /** And reading it delivers the other key's values. */
  lemma ReadsAnother(files: Files, wants: Callback, a: Answers)
    requires a.Valid()
    ensures Gotten(files, "a#1", wants, a) == Gotten(files, "a", wants, a)
  {
    assert "a" + ['#'] + "1" == "a#1";
    TailIsCutOff("a", '#', "1");
    SameItem(files, "a#1", "a", wants, a);
  }

  lemma SameItem(files: Files, x: string, y: string, wants: Callback, a: Answers)
    requires a.Valid() && files.Item(x) == files.Item(y) && |x| <= LONGEST_READ && |y| <= LONGEST_READ
    ensures Gotten(files, x, wants, a) == Gotten(files, y, wants, a)
  {
    hide PathOf, UrlFits, AskedPath, Scan, AsInt;
    UrlFitsIff(x);
    UrlFitsIff(y);
  }
}
