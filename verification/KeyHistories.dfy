/** Runs of the key/value store: the files stand for what each key's history has left, and
    reading a key delivers that. */
module KeyHistories {
  import opened Basics
  import opened DriveUrls
  import opened Drive
  import opened Records
  import opened KeyValues
  import Mkdirs

  // ---- histories ----

  /** An operation of a run, and whether it took place at the service. */
  datatype Past = Past(op: Op, took: bool)

  /** What an operation that takes place makes of its key's values. */
  function Change(before: seq<Bytes>, op: Op): seq<Bytes> {
    if op.Put? then before + [op.value]
    else if op.Set? then [op.value]
    else if op.Delete? then []
    else before
  }

  /** The values put under a key since it was last set or deleted. */
  function Since(history: seq<Past>, key: string): seq<Bytes> {
    if history == [] then []
    else
      var before := Since(history[..|history| - 1], key);
      var last := history[|history| - 1];
      if last.took && last.op.key == key then Change(before, last.op) else before
  }

  ghost predicate AllValues(values: seq<Bytes>) {
    forall k :: 0 <= k < |values| ==> IsValue(values[k])
  }

  ghost predicate ValidHistory(history: seq<Past>) {
    forall k :: 0 <= k < |history| ==> ValidOp(history[k].op)
  }

  lemma {:induction false} SinceAreValues(history: seq<Past>, key: string)
    requires ValidHistory(history)
    ensures AllValues(Since(history, key)) && WellFormed(Since(history, key))
  {
    if history != [] {
      SinceAreValues(history[..|history| - 1], key);
    }
  }

  /** The file of a key holds the records of what the key's history has left. */
  ghost predicate Agrees(files: Files, history: seq<Past>, key: string)
    requires ValidHistory(history)
  {
    SinceAreValues(history, key);
    var values := Since(history, key);
    (files.Has(key) <==> values != []) && (files.Has(key) ==> files.At(key) == Encode(values))
  }

  /** Paths of these keys name different places, none of them inside another. */
  ghost predicate ToldApart(reading: Reading, keys: set<string>) {
    && (forall a :: a in keys ==> reading(AskedPath(a)) != [])
    && (forall a, b :: a in keys && b in keys && reading(AskedPath(a)) <= reading(AskedPath(b)) ==> a == b)
  }

  /** Every file is one of the keys'. */
  ghost predicate Owned(files: Files, keys: set<string>) {
    forall i :: i in files.held ==> exists key :: key in keys && i == files.Item(key)
  }

  ghost predicate AllAgree(files: Files, history: seq<Past>, keys: set<string>)
    requires ValidHistory(history)
  {
    && ToldApart(files.reading, keys) && Owned(files, keys) && AllSmall(files)
    && forall key :: key in keys ==> Agrees(files, history, key)
  }

  /** The longest file that put_value can make: it fails on one of 2^31 bytes. */
  const LONGEST_FILE: nat := 0x7FFF_FFFF + WORD + MAX_VALUE

  ghost predicate AllSmall(files: Files) {
    forall i :: i in files.held ==> |files.held[i]| <= LONGEST_FILE
  }

  lemma SinceStep(history: seq<Past>, p: Past, key: string)
    ensures Since(history + [p], key) ==
            if p.took && p.op.key == key then Change(Since(history, key), p.op) else Since(history, key)
  {
    assert (history + [p])[..|history|] == history;
  }

  lemma OneRecord(values: seq<Bytes>, value: Bytes)
    requires WellFormed(values) && IsValue(value)
    ensures WellFormed(values + [value]) && Encode(values + [value]) == Encode(values) + Record(value)
    ensures Encode([value]) == Record(value)
  {
    assert Encode([value]) == Record(value) + Encode([]);
    EncodeConcat(values, [value]);
  }

  /** Whose bytes put_value appends to, in a store of small files. */
  lemma PutReadsBack(files: Files, key: string, length: nat, a: Answers)
    requires a.Valid() && |key| <= LONGEST_READ && AllSmall(files)
    ensures var r := ReadForPut(files, key, length, a);
            r.Block? ==> LengthOf(files, key) < 0x8000_0000 && r.data == if files.Has(key) then files.At(key) else []
  {
    hide UrlFits, PathOf, Files.IsFolder;
    UrlFitsIff(key);
    LengthReads(LengthOf(files, key), 0);
  }

  /** What a change that takes place does: it is one of a key that fits, and touches no place
      but the key's and, in a removal, those inside it. */
  lemma TookIsOwn(files: Files, op: Op)
    requires ValidOp(op) && Perform(files, op).Done?
    ensures var done := Perform(files, op);
            && done.files.reading == files.reading
            && (!done.took ==> done.files == files)
            && (done.took ==> |op.key| <= LONGEST_READ)
            && forall i :: !(files.Item(op.key) <= i) ==>
                 && (i in done.files.held <==> i in files.held)
                 && (i in files.held ==> done.files.held[i] == files.held[i])
  {
    hide PathOf, UrlFits, FolderUrlFits, Record, ReadForPut, Gotten, Files.CanStore, AskedPath;
    UrlFitsIff(op.key);
  }

  /** And what it leaves at and inside its own place. */
  lemma TookHere(files: Files, op: Op)
    requires ValidOp(op) && Perform(files, op).Done? && Perform(files, op).took && AllSmall(files)
    ensures var before := if files.Has(op.key) then files.At(op.key) else [];
            var after := Perform(files, op).files;
            && (op.Delete? <==> !after.Has(op.key))
            && (op.Put? ==> |before| < 0x8000_0000 && after.At(op.key) == before + Record(op.value))
            && (op.Set? ==> after.At(op.key) == Record(op.value))
            && !op.Get?
            && forall i :: files.Item(op.key) < i ==>
                 (i in after.held ==> i in files.held && after.held[i] == files.held[i])
  {
    hide PathOf, UrlFits, FolderUrlFits, Record, ReadForPut, Gotten, Files.CanStore, AskedPath;
    UrlFitsIff(op.key);
    if op.Put? { PutReadsBack(files, op.key, |op.value|, op.a); }
  }

  lemma OpKeepsSmall(files: Files, op: Op)
    requires ValidOp(op) && Perform(files, op).Done? && AllSmall(files)
    ensures AllSmall(Perform(files, op).files)
  {
    hide Perform, Record, AskedPath;
    TookIsOwn(files, op);
    var after := Perform(files, op).files;
    if Perform(files, op).took {
      TookHere(files, op);
      if op.Put? || op.Set? { RecordLength(op.value); }
      forall i | i in after.held ensures |after.held[i]| <= LONGEST_FILE {
        if files.Item(op.key) < i { assert i in files.held; }
        if files.Item(op.key) == i { assert after.Has(op.key) && after.held[i] == after.At(op.key); }
      }
    }
  }

  lemma OpKeepsOwned(files: Files, op: Op, keys: set<string>)
    requires ValidOp(op) && Perform(files, op).Done? && AllSmall(files) && Owned(files, keys) && op.key in keys
    ensures Owned(Perform(files, op).files, keys)
  {
    hide Perform, Record, AskedPath;
    TookIsOwn(files, op);
    var after := Perform(files, op).files;
    if Perform(files, op).took {
      TookHere(files, op);
      forall i | i in after.held ensures exists key :: key in keys && i == after.Item(key) {
        if i == files.Item(op.key) {
          assert i == after.Item(op.key);
        } else {
          assert i in files.held;
          var key :| key in keys && i == files.Item(key);
          assert i == after.Item(key);
        }
      }
    }
  }

  /** One operation on one of the keys, failed or not, keeps the agreement for its own key and
      every other. */
  lemma OpAgrees(files: Files, history: seq<Past>, op: Op, keys: set<string>, key: string)
    requires ValidHistory(history) && AllAgree(files, history, keys) && op.key in keys && key in keys
    requires ValidOp(op) && Perform(files, op).Done?
    ensures var done := Perform(files, op);
            ValidHistory(history + [Past(op, done.took)]) && Agrees(done.files, history + [Past(op, done.took)], key)
  {
    hide Since, Record, Perform, Encode, AskedPath;
    var done := Perform(files, op);
    TookIsOwn(files, op);
    SinceStep(history, Past(op, done.took), key);
    SinceAreValues(history, key);
    assert Agrees(files, history, key);
    if done.took {
      if key == op.key {
        TookHere(files, op);
        if op.Put? || op.Set? { OneRecord(Since(history, key), op.value); }
        EmptyEncoding();
      } else {
        assert !(files.Item(op.key) <= files.Item(key));
      }
    }
  }

  lemma OpKeepsAll(files: Files, history: seq<Past>, op: Op, keys: set<string>)
    requires ValidHistory(history) && AllAgree(files, history, keys) && op.key in keys
    requires ValidOp(op) && Perform(files, op).Done?
    ensures var done := Perform(files, op);
            ValidHistory(history + [Past(op, done.took)]) && AllAgree(done.files, history + [Past(op, done.took)], keys)
  {
    hide Perform, Agrees, AskedPath, AllSmall, Owned;
    TookIsOwn(files, op);
    OpKeepsSmall(files, op);
    OpKeepsOwned(files, op, keys);
    var done := Perform(files, op);
    forall key | key in keys ensures Agrees(done.files, history + [Past(op, done.took)], key) {
      OpAgrees(files, history, op, keys, key);
    }
  }

  /** Where all files are the keys', a key is no folder. */
  lemma NoFolder(files: Files, keys: set<string>, key: string)
    requires ToldApart(files.reading, keys) && Owned(files, keys) && key in keys
    ensures !files.IsFolder(key)
  {
    hide AskedPath;
    forall i | i in files.held ensures !(files.Item(key) < i) {
      var other :| other in keys && i == files.Item(other);
    }
  }

  /** get_values delivers exactly the values of the key's history, in order, up to the
      first after which the callback wants no more; or a request fails and nothing is
      delivered. */
  lemma GetDeliversHistory(files: Files, history: seq<Past>, keys: set<string>, key: string,
                            wants: Callback, a: Answers)
    requires ValidHistory(history) && AllAgree(files, history, keys) && key in keys && a.Valid()
    requires !GetBreaks(files, key, a)
    ensures var r := Gotten(files, key, wants, a);
            && r.Got?
            && (r == Got(0, Until(Since(history, key), wants, [])) || (r.code < 0 && r.delivered == []))
            && (a.Fine() ==> r == Got(0, Until(Since(history, key), wants, [])))
  {
    NoFolder(files, keys, key);
    assert Agrees(files, history, key);
    hide AskedPath, Since, Scan, Encode, Gotten, GetBreaks, Files.IsFolder, Owned, ToldApart;
    SinceAreValues(history, key);
    NotLost(files, key, a.length);
    if files.Has(key) { ScanEncoded(Since(history, key), wants, []); }
    GottenIs(files, key, wants, a);
  }

  /** What get_values comes to when it does not break. */
  lemma GottenIs(files: Files, key: string, wants: Callback, a: Answers)
    requires a.Valid() && !GetBreaks(files, key, a)
    requires TakenFor(files, key, a.length) == (if files.Has(key) then |files.At(key)| else 0)
    requires files.Has(key) ==> |files.At(key)| > WORD
    ensures var r := Gotten(files, key, wants, a);
            var whole := if files.Has(key) then Scan(files.At(key), wants, []) else Scanned(true, []);
            var good := Got(if whole.ok then 0 else BAD_PERSISTENT_DATA, whole.delivered);
            && r.Got?
            && (r == good || (r.code < 0 && r.delivered == []))
            && (a.Fine() ==> r == good)
  {
    hide Scan, AsInt, FileLength, FileRead, ReadBreaks, LengthBreaks, TakenFor, Files.Item, Files.IsFolder;
    LengthIs(files, key, a.length);
    if a.length.Fine() && files.Has(key) && a.memory {
      var n := |files.At(key)|;
      ReadIs(files, key, n, n, a.fetch);
      CodeReads(FileRead(files, key, n, n, a.fetch).n);
    }
  }

  lemma CodeReads(e: int)
    ensures IsCode(e) ==> AsInt(e) == e
  {
  }

  lemma NotLost(files: Files, key: string, i: Info)
    requires AllSmall(files) && !files.IsFolder(key)
    ensures TakenFor(files, key, i) == if files.Has(key) then |files.At(key)| else 0
  {
    hide Files.IsFolder;
  }

  /** At any length, with everything answered, get_values delivers a key's values exactly
      when the length does not read as "not found"; at that length it succeeds with none. */
  lemma GetDeliversIff(files: Files, history: seq<Past>, key: string, wants: Callback, a: Answers)
    requires ValidHistory(history) && Agrees(files, history, key) && a.Valid() && a.Fine()
    requires |key| <= LONGEST_READ && files.Has(key)
    ensures var r := Gotten(files, key, wants, a);
            && (r == Got(0, Until(Since(history, key), wants, []))
                <==> |files.At(key)| % UINT_RANGE != LOST_LENGTH)
            && (|files.At(key)| % UINT_RANGE == LOST_LENGTH ==> r == Got(0, []))
  {
    hide PathOf, Since, Scan, Encode, AsInt, UrlFits, Files.Item, Files.IsFolder;
    SinceAreValues(history, key);
    UrlFitsIff(key);
    var values := Since(history, key);
    LengthReads(LengthOf(files, key), 0);
    ScanEncoded(values, wants, []);
    UntilGrows(values, wants, []);
  }

  lemma {:induction false} UntilGrows(values: seq<Bytes>, wants: Callback, delivered: seq<Bytes>)
    requires values != []
    ensures |Until(values, wants, delivered)| > |delivered|
    decreases |values|
  {
    var seen := delivered + [values[0]];
    if wants(seen) && |values| > 1 { UntilGrows(values[1..], wants, seen); }
  }

  // ---- whole runs ----

  /** A run and its history, or nothing if an operation of it runs off a buffer. */
  function RunOps(files: Files, history: seq<Past>, ops: seq<Op>): (r: Option<(Files, seq<Past>)>)
    requires ValidHistory(history) && ValidOps(ops)
    ensures r.Some? ==> ValidHistory(r.value.1)
    decreases |ops|
  {
    if ops == [] then Some((files, history))
    else
      match Perform(files, ops[0])
      case Broken(_) => None
      case Done(after, _, took) => RunOps(after, history + [Past(ops[0], took)], ops[1..])
  }

  /** The keys of a run. */
  function KeysOf(ops: seq<Op>): set<string> {
    set k | 0 <= k < |ops| :: ops[k].key
  }

  /** No operation of a run breaks when it comes. */
  predicate NoneBreaks(files: Files, ops: seq<Op>)
    requires ValidOps(ops)
    decreases |ops|
  {
    ops == [] ||
    (!Breaks(files, ops[0]) && (Perform(files, ops[0]).Done? ==> NoneBreaks(Perform(files, ops[0]).files, ops[1..])))
  }

  /** A run is followed to its end exactly when none of its operations breaks. */
  lemma {:induction false} RunsIff(files: Files, history: seq<Past>, ops: seq<Op>)
    requires ValidHistory(history) && ValidOps(ops)
    ensures RunOps(files, history, ops).Some? <==> NoneBreaks(files, ops)
    decreases |ops|
  {
    hide Perform, Breaks;
    if ops != [] {
      BreaksIff(files, ops[0]);
      var done := Perform(files, ops[0]);
      if done.Done? { RunsIff(done.files, history + [Past(ops[0], done.took)], ops[1..]); }
    }
  }

  lemma {:induction false} RunAgrees(files: Files, history: seq<Past>, ops: seq<Op>, keys: set<string>)
    requires ValidHistory(history) && ValidOps(ops) && AllAgree(files, history, keys)
    requires forall k :: 0 <= k < |ops| ==> ops[k].key in keys
    requires RunOps(files, history, ops).Some?
    ensures var r := RunOps(files, history, ops).value; AllAgree(r.0, r.1, keys)
    decreases |ops|
  {
    hide Perform, AllAgree;
    if ops != [] {
      var done := Perform(files, ops[0]);
      var history1 := history + [Past(ops[0], done.took)];
      OpKeepsAll(files, history, ops[0], keys);
      RunAgrees(done.files, history1, ops[1..], keys);
    }
  }

  /** Refinement over whole runs: after any operations that run off no buffer, on any keys
      whose paths name different places, with any requests failing, reading a key delivers
      what its own history has left. The length that reads as "not found" is never reached. */
  lemma RunRefinesHistory(reading: Reading, ops: seq<Op>, key: string, wants: Callback, a: Answers)
    requires ValidOps(ops) && a.Valid() && ToldApart(reading, KeysOf(ops) + {key})
    requires NoneBreaks(Files(map[], reading), ops + [Get(key, wants, a)])
    ensures RunOps(Files(map[], reading), [], ops).Some?
    ensures var (files, history) := RunOps(Files(map[], reading), [], ops).value;
            var r := Gotten(files, key, wants, a);
            && r.Got?
            && (r == Got(0, Until(Since(history, key), wants, [])) || (r.code < 0 && r.delivered == []))
            && (a.Fine() ==> r == Got(0, Until(Since(history, key), wants, [])))
  {
    var start, keys := Files(map[], reading), KeysOf(ops) + {key};
    assert AllAgree(start, [], keys);
    hide RunOps, Gotten, NoneBreaks, Perform, AllAgree, ToldApart;
    LastDoesNotBreak(start, [], ops, Get(key, wants, a));
    RunAgrees(start, [], ops, keys);
    var r := RunOps(start, [], ops).value;
    GetDeliversHistory(r.0, r.1, keys, key, wants, a);
  }

  lemma {:induction false} LastDoesNotBreak(files: Files, history: seq<Past>, ops: seq<Op>, last: Op)
    requires ValidHistory(history) && ValidOps(ops) && ValidOp(last) && NoneBreaks(files, ops + [last])
    ensures RunOps(files, history, ops).Some? && !Breaks(RunOps(files, history, ops).value.0, last)
    decreases |ops|
  {
    hide Perform, Breaks;
    var all := ops + [last];
    if ops == [] {
      assert all[0] == last;
    } else {
      assert all[0] == ops[0] && all[1..] == ops[1..] + [last];
      BreaksIff(files, ops[0]);
      var done := Perform(files, ops[0]);
      LastDoesNotBreak(done.files, history + [Past(ops[0], done.took)], ops[1..], last);
    }
  }

  // ---- what the caller is told ----

  /** The values put under a key since it was last set or deleted, by the calls alone. */
  function Fold(ops: seq<Op>, key: string): seq<Bytes> {
    if ops == [] then []
    else
      var before := Fold(ops[..|ops| - 1], key);
      var last := ops[|ops| - 1];
      if last.key == key then Change(before, last) else before
  }

  /** The length of their file. */
  function Volume(values: seq<Bytes>): nat {
    if values == [] then 0 else WORD + |values[0]| + Volume(values[1..])
  }

  lemma {:induction false} VolumeIs(values: seq<Bytes>)
    requires WellFormed(values)
    ensures |Encode(values)| == Volume(values)
  {
    hide Record;
    if values != [] {
      RecordLength(values[0]);
      VolumeIs(values[1..]);
    }
  }

  /** The calls of a history. */
  function Calls(history: seq<Past>): seq<Op> {
    seq(|history|, k requires 0 <= k < |history| => history[k].op)
  }

  /** All of it took place. */
  ghost predicate AllTook(history: seq<Past>) {
    forall k :: 0 <= k < |history| ==> history[k].took || history[k].op.Get?
  }

  lemma {:induction false} AllTookIsFold(history: seq<Past>, key: string)
    requires AllTook(history)
    ensures Since(history, key) == Fold(Calls(history), key)
  {
    if history != [] {
      var h := history[..|history| - 1];
      assert Calls(history)[..|h|] == Calls(h);
      AllTookIsFold(h, key);
    }
  }

  /** Among keys that are told apart, a file can be stored for each whose requests keep
      their URLs whole. */
  lemma CanStoreIff(files: Files, keys: set<string>, key: string)
    requires ToldApart(files.reading, keys) && Owned(files, keys) && key in keys
    ensures files.CanStore(key) <==> NoCut(key)
  {
    hide AskedPath, NoCut;
    NoFolder(files, keys, key);
    forall i | i in files.held ensures !(i < files.Item(key)) {
      var other :| other in keys && i == files.Item(other);
    }
  }

  /** A put, set or deletion that reports success has taken place, if its key can be stored. */
  lemma ZeroMeansTook(files: Files, history: seq<Past>, op: Op, keys: set<string>)
    requires ValidHistory(history) && AllAgree(files, history, keys) && op.key in keys && ValidOp(op)
    requires Perform(files, op).Done? && Perform(files, op).code == 0 && !op.Get?
    requires op.Delete? || NoCut(op.key)
    ensures Perform(files, op).took
  {
    hide Perform, AskedPath, NoCut, Files.CanStore, Record;
    CanStoreIff(files, keys, op.key);
    ZeroMeansDone(files, op);
  }

  /** What each call of a run returns. */
  function Codes(files: Files, ops: seq<Op>): seq<int>
    requires ValidOps(ops)
    decreases |ops|
  {
    if ops == [] then []
    else
      match Perform(files, ops[0])
      case Broken(_) => []
      case Done(after, code, _) => [code] + Codes(after, ops[1..])
  }

  /** In any run with any failures, the history holds the calls in their order, and each put
      or set that returned success for a key that can be stored, and each such deletion, has
      taken place. */
  lemma {:induction false} SuccessTook(files: Files, history: seq<Past>, ops: seq<Op>, keys: set<string>)
    requires ValidHistory(history) && ValidOps(ops) && AllAgree(files, history, keys)
    requires forall k :: 0 <= k < |ops| ==> ops[k].key in keys
    requires RunOps(files, history, ops).Some?
    ensures var r := RunOps(files, history, ops).value.1;
            var codes := Codes(files, ops);
            && |codes| == |ops| && |r| == |history| + |ops| && r[..|history|] == history
            && forall k :: 0 <= k < |ops| ==>
                 && r[|history| + k].op == ops[k]
                 && (codes[k] == 0 && !ops[k].Get? && (ops[k].Delete? || NoCut(ops[k].key)) ==> r[|history| + k].took)
    decreases |ops|
  {
    hide Perform, AllAgree, NoCut;
    if ops != [] {
      var op := ops[0];
      var done := Perform(files, op);
      var history1 := history + [Past(op, done.took)];
      OpKeepsAll(files, history, op, keys);
      if done.code == 0 && !op.Get? && (op.Delete? || NoCut(op.key)) { ZeroMeansTook(files, history, op, keys); }
      SuccessTook(done.files, history1, ops[1..], keys);
      var r := RunOps(files, history, ops).value.1;
      assert r[|history|] == r[..|history1|][|history|] == Past(op, done.took);
      assert r[..|history|] == r[..|history1|][..|history|] == history;
    }
  }

  /** Everything is answered, and each put or set is of a key that can be stored, a put to a
      file that put_value still handles. */
  ghost predicate AllServed(before: seq<Op>, ops: seq<Op>)
    requires ValidOps(ops)
  {
    forall k :: 0 <= k < |ops| ==>
      && ops[k].a.Fine()
      && (ops[k].Put? || ops[k].Set? ==> NoCut(ops[k].key))
      && (ops[k].Put? ==> Volume(Fold(before + ops[..k], ops[k].key)) < 0x8000_0000)
  }

  lemma ServedTakes(files: Files, history: seq<Past>, op: Op, keys: set<string>)
    requires ValidHistory(history) && AllAgree(files, history, keys) && op.key in keys && ValidOp(op)
    requires op.a.Fine() && !Breaks(files, op) && (op.Put? || op.Set? ==> NoCut(op.key))
    requires op.Put? ==> Volume(Since(history, op.key)) < 0x8000_0000
    ensures var done := Perform(files, op);
            done.Done? && (!op.Get? ==> done.took && done.code == 0)
  {
    assert Agrees(files, history, op.key);
    hide Perform, ToldApart, Owned, NoCut, Record, Since, Encode, Volume, Breaks, Files.CanStore, Files.IsFolder;
    SinceAreValues(history, op.key);
    VolumeIs(Since(history, op.key));
    NoFolder(files, keys, op.key);
    CanStoreIff(files, keys, op.key);
    FineTakes(files, op);
  }

  /** One operation with everything answered takes place and reports success. */
  lemma FineTakes(files: Files, op: Op)
    requires ValidOp(op) && op.a.Fine() && !Breaks(files, op)
    requires op.Put? ==> LengthOf(files, op.key) < 0x8000_0000 && !files.IsFolder(op.key)
    requires op.Put? || op.Set? ==> files.CanStore(op.key)
    ensures var done := Perform(files, op);
            done.Done? && (!op.Get? ==> done.took && done.code == 0)
  {
    hide PathOf, UrlFits, AskedPath, Record, Breaks, BlockSize, AfterPut, AfterSet, Gotten, Files.CanStore;
    hide Files.IsFolder, Files.With;
    BreaksIff(files, op);
    UrlDecides(files, op);
    match op
    case Put(key, value, a) =>
      if files.Has(key) { PutAppendsIff(files, key, value, a); } else { PutCreatesIff(files, key, value, a); }
    case Set(key, value, a) => SetStoresIff(files, key, value, a);
    case Delete(key, a) =>
    case Get(_, _, _) =>
  }

  lemma {:induction false} ServedRun(files: Files, history: seq<Past>, ops: seq<Op>, keys: set<string>)
    requires ValidHistory(history) && ValidOps(ops) && AllAgree(files, history, keys) && AllTook(history)
    requires forall k :: 0 <= k < |ops| ==> ops[k].key in keys
    requires NoneBreaks(files, ops) && AllServed(Calls(history), ops)
    ensures var r := RunOps(files, history, ops);
            r.Some? && AllTook(r.value.1) && Calls(r.value.1) == Calls(history) + ops
    decreases |ops|
  {
    hide Perform, Breaks, AllAgree, NoCut, Fold, Since, Volume;
    if ops == [] {
      assert Calls(history) + ops == Calls(history);
    } else {
      var op := ops[0];
      assert Calls(history) + ops[..0] == Calls(history);
      AllTookIsFold(history, op.key);
      ServedTakes(files, history, op, keys);
      OpKeepsAll(files, history, op, keys);
      var done := Perform(files, op);
      var history1 := history + [Past(op, done.took)];
      assert Calls(history1) == Calls(history) + [op];
      forall k | 0 <= k < |ops| - 1
        ensures Calls(history1) + ops[1..][..k] == Calls(history) + ops[..k + 1] && ops[1..][k] == ops[k + 1]
      {
      }
      ServedRun(done.files, history1, ops[1..], keys);
      assert Calls(history1) + ops[1..] == Calls(history) + ops;
    }
  }

  /** A run in which everything is answered and can be stored: reading a key delivers what the
      puts, sets and deletions of the run itself make of it. */
  lemma ServedRunDelivers(reading: Reading, ops: seq<Op>, key: string, wants: Callback, a: Answers)
    requires ValidOps(ops) && a.Valid() && a.Fine() && ToldApart(reading, KeysOf(ops) + {key})
    requires NoneBreaks(Files(map[], reading), ops + [Get(key, wants, a)]) && AllServed([], ops)
    ensures var r := RunOps(Files(map[], reading), [], ops);
            r.Some? && Gotten(r.value.0, key, wants, a) == Got(0, Until(Fold(ops, key), wants, []))
  {
    var start, keys := Files(map[], reading), KeysOf(ops) + {key};
    assert AllAgree(start, [], keys);
    hide RunOps, Gotten, Perform, Breaks, AllAgree, ToldApart, Fold, Since, AllServed;
    RunRefinesHistory(reading, ops, key, wants, a);
    FrontDoesNotBreak(start, ops, Get(key, wants, a));
    assert Calls([]) == [];
    ServedRun(start, [], ops, keys);
    assert Calls([]) + ops == ops;
    AllTookIsFold(RunOps(start, [], ops).value.1, key);
  }

  lemma {:induction false} FrontDoesNotBreak(files: Files, ops: seq<Op>, last: Op)
    requires ValidOps(ops) && ValidOp(last) && NoneBreaks(files, ops + [last])
    ensures NoneBreaks(files, ops)
    decreases |ops|
  {
    hide Perform, Breaks;
    if ops != [] {
      var all := ops + [last];
      assert all[0] == ops[0] && all[1..] == ops[1..] + [last];
      BreaksIff(files, ops[0]);
      var done := Perform(files, ops[0]);
      FrontDoesNotBreak(done.files, ops[1..], last);
    }
  }

  /** Two keys that ask for the same place share their values, whatever they are: one of them
      set, the other delivers; so the condition on the keys of a run cannot be dropped. */
  lemma SharedPlace(files: Files, a: string, b: string, value: Bytes, wants: Callback)
    requires IsValue(value) && |a| <= LONGEST_UPLOAD && |b| <= LONGEST_READ && files.CanStore(a)
    requires files.Item(a) == files.Item(b)
    ensures var done := AfterSet(files, a, value, ALL_FINE);
            done.Done? && done.code == 0 && Gotten(done.files, b, wants, ALL_FINE) == Got(0, [value])
  {
    hide PathOf, UrlFits, AskedPath, Scan, Record, Encode, Files.CanStore;
    SetStoresIff(files, a, value, ALL_FINE);
    var after := files.With(a, Record(value));
    UrlFitsIff(b);
    RecordLength(value);
    assert after.Has(b) && after.At(b) == Record(value);
    OneRecord([], value);
    assert [] + [value] == [value];
    assert Encode([value]) == Record(value);
    ScanEncoded([value], wants, []);
    assert Until([value], wants, []) == [value] by { OneIsShown(value, wants); }
  }

  lemma OneIsShown(value: Bytes, wants: Callback)
    ensures Until([value], wants, []) == [value]
  {
    assert [] + [value] == [value];
  }

  /** Deleting a key that fits, present or not, succeeds when the service answers, and its
      values are gone; another key keeps its own, if neither's place is inside the other's. */
  lemma DeleteForgets(files: Files, key: string, other: string, wants: Callback, a: Answers)
    requires a.Valid() && a.Fine() && |key| <= LONGEST_REMOVE && files.Item(key) != []
    ensures var done := AfterDelete(files, key, a);
            && done.Done? && done.code == 0
            && Gotten(done.files, key, wants, a) == Got(0, [])
            && (!(files.Item(key) <= files.Item(other)) && !(files.Item(other) <= files.Item(key)) ==>
                  Gotten(done.files, other, wants, a) == Gotten(files, other, wants, a))
            && (files.Item(key) <= files.Item(other) && |other| <= LONGEST_READ ==>
                  Gotten(done.files, other, wants, a) == Got(0, []))
  {
    hide PathOf, Scan, UrlFits, AskedPath;
    UrlFitsIff(key);
    UrlFitsIff(other);
    var after := files.Without(key);
    if !(files.Item(key) <= files.Item(other)) && !(files.Item(other) <= files.Item(key)) {
      SameFolders(files, key, other);
    }
  }

  lemma SameFolders(files: Files, key: string, other: string)
    requires !(files.Item(key) <= files.Item(other)) && !(files.Item(other) <= files.Item(key))
    ensures files.Without(key).IsFolder(other) <==> files.IsFolder(other)
  {
    hide AskedPath;
    if i :| i in files.held && files.Item(other) < i {
      assert !(files.Item(key) <= i) by { Incomparable(files.Item(key), files.Item(other), i); }
      assert i in files.Without(key).held;
    }
  }

  lemma Incomparable(a: Place, b: Place, i: Place)
    requires !(a <= b) && !(b <= a) && b < i
    ensures !(a <= i)
  {
  }

  // ---- keys that are told apart ----

  /** A service that takes paths letter by letter. */
  function Literal(path: string): Place {
    Mkdirs.Names(path)
  }

  /** There, keys of one name each, with no character that cuts a URL, are all told apart. */
  lemma PlainKeysAreToldApart(keys: set<string>)
    requires forall k :: k in keys ==>
               k != "" && |k| <= LONGEST_READ && NoCut(k) && '/' !in k && '\0' !in k
    ensures ToldApart(Literal, keys)
  {
    hide Literal, AskedPath;
    forall k | k in keys ensures Literal(AskedPath(k)) == ["KeyValues", k] {
      PlaceOfPlainKey(k);
    }
    forall a, b | a in keys && b in keys && Literal(AskedPath(a)) <= Literal(AskedPath(b)) ensures a == b {
      assert ["KeyValues", a][1] == ["KeyValues", b][1];
    }
  }

  lemma PlaceOfPlainKey(k: string)
    requires k != "" && |k| <= LONGEST_READ && NoCut(k) && '/' !in k && '\0' !in k
    ensures Literal(AskedPath(k)) == ["KeyValues", k]
  {
    hide NoCut, Front, Mkdirs.Names;
    RootIsPlain();
    PathOfFitting(k);
    NoCutConcat(KEYS_DIR + "/", k);
    FrontOfPlain(PathOf(k));
    assert KEYS_DIR + "/" + k == "/KeyValues" + "/" + k;
    Mkdirs.NamesConcat("/KeyValues", k);
    assert "" + "/" + "KeyValues" == "/KeyValues";
    Mkdirs.NamesConcat("", "KeyValues");
    Mkdirs.NamesOfPiece("");
    Mkdirs.NamesOfPiece("KeyValues");
    assert forall i :: 0 <= i < |k| ==> k[i] in k;
    Mkdirs.NamesOfPiece(k);
  }

  // ---- the lost length ----

  /** A value of zeros. */
  function Zeros(n: nat): (v: Bytes)
    ensures |v| == n
  {
    seq(n, _ => 0)
  }

  function Copies(v: Bytes, n: nat): (r: seq<Bytes>)
    ensures |r| == n && forall k :: 0 <= k < n ==> r[k] == v
  {
    seq(n, _ => v)
  }

  lemma {:induction false} CopiesLength(v: Bytes, n: nat)
    requires IsValue(v)
    ensures |Encode(Copies(v, n))| == n * (WORD + |v|)
  {
    hide Record;
    if n > 0 {
      var copies := Copies(v, n);
      assert copies[1..] == Copies(v, n - 1);
      CopiesLength(v, n - 1);
      RecordLength(v);
      OneMore(n, WORD + |v|);
      assert Encode(copies) == Record(v) + Encode(copies[1..]);
    }
  }

  lemma OneMore(n: nat, x: nat)
    requires n > 0
    ensures n * x == (n - 1) * x + x
  {
  }

  /** 69111 values of the greatest length and a smaller one make a file of the lost length;
      get_values finds no values in it, and put_value drops them all. */
  lemma LostFile(files: Files, key: string, wants: Callback, value: Bytes)
    requires |key| <= LONGEST_SESSION && IsValue(value) && files.Has(key) && files.CanStore(key)
    requires files.At(key) == Encode(Copies(Zeros(MAX_VALUE), 69111) + [Zeros(18868)])
    ensures |files.At(key)| == LOST_LENGTH
    ensures WellFormed(Copies(Zeros(MAX_VALUE), 69111) + [Zeros(18868)])
    ensures Gotten(files, key, wants, ALL_FINE) == Got(0, [])
    ensures AfterPut(files, key, value, ALL_FINE) == Done(files.With(key, Record(value)), 0, true)
  {
    hide PathOf, Record, Encode, Scan, UrlFits, Files.Item, Files.IsFolder, Files.CanStore;
    var front, last := Copies(Zeros(MAX_VALUE), 69111), Zeros(18868);
    CopiesLength(Zeros(MAX_VALUE), 69111);
    OneRecord(front, last);
    RecordLength(last);
    UrlFitsIff(key);
    PutAppendsIff(files, key, value, ALL_FINE);
  }
}
