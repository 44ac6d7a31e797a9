/**
 The size-rotating log file sink over a directory that maps file names to contents.
 No file operation fails.
 */
module RotatingSink {
  import opened Digits

  // ----- file names -----

  /** The name of log file `index`: base.ext, then base.1.ext, base.2.ext and so on. */
  function CalcFilename(base: string, index: nat, ext: string): string {
    if index != 0 then base + "." + Decimal(index) + "." + ext else base + "." + ext
  }

  lemma FilenamesDiffer(base: string, i: nat, j: nat, ext: string)
    requires i != j
    ensures CalcFilename(base, i, ext) != CalcFilename(base, j, ext)
  {
    hide Decimal;
    if CalcFilename(base, i, ext) == CalcFilename(base, j, ext) {
      NameLength(base, i, ext);
      NameLength(base, j, ext);
      assert i != 0 && j != 0 && |Decimal(i)| == |Decimal(j)|;
      MiddleOfName(base, Decimal(i), ext);
      MiddleOfName(base, Decimal(j), ext);
      DecimalRoundTrip(i);
      DecimalRoundTrip(j);
    }
  }

  lemma NameLength(base: string, i: nat, ext: string)
    ensures |CalcFilename(base, i, ext)| == |base| + |ext| + 1 + (if i != 0 then |Decimal(i)| + 1 else 0)
    ensures i != 0 ==> |Decimal(i)| > 0
  {
  }

  lemma MiddleOfName(base: string, middle: string, ext: string)
    ensures (base + "." + middle + "." + ext)[|base| + 1..|base| + 1 + |middle|] == middle
  {
  }

  /** The name tells base, extension and, but for file 0, the index in decimal. */
  lemma FilenameIs(base: string, i: nat, ext: string)
    ensures i == 0 ==> CalcFilename(base, i, ext) == base + "." + ext
    ensures i != 0 ==> exists digits ::
      AllDigits(digits) && Value(digits) == i && CalcFilename(base, i, ext) == base + "." + digits + "." + ext
  {
    DecimalRoundTrip(i);
  }

  // ----- what the files hold, message by message -----

  /** The bytes of a list of messages. */
  function Bytes(ms: seq<string>): string {
    if ms == [] then "" else Bytes(ms[..|ms|-1]) + ms[|ms|-1]
  }

  lemma BytesAppend(ms: seq<string>, m: string)
    ensures Bytes(ms + [m]) == Bytes(ms) + m
  {
    assert (ms + [m])[..|ms|] == ms;
  }

  lemma EmptyFile()
    ensures Bytes([]) == ""
  {
  }

  /** The messages of all files, oldest file first. */
  function Chronicle(slots: seq<seq<string>>): seq<string> {
    if slots == [] then [] else Chronicle(slots[1..]) + slots[0]
  }

  /** Files shift up by one, the one past `maxFiles` goes, and file 0 starts empty. */
  function Rotated(slots: seq<seq<string>>, maxFiles: nat): seq<seq<string>> {
    if |slots| <= maxFiles then [[]] + slots else [[]] + slots[..maxFiles]
  }

  predicate NeedsRotation(slots: seq<seq<string>>, msg: string, maxSize: nat)
    requires slots != []
  {
    |Bytes(slots[0])| + |msg| > maxSize
  }

  /** The files after one more message. */
  function Logged(slots: seq<seq<string>>, msg: string, maxSize: nat, maxFiles: nat): seq<seq<string>>
    requires slots != []
  {
    var s := if NeedsRotation(slots, msg, maxSize) then Rotated(slots, maxFiles) else slots;
    s[0 := s[0] + [msg]]
  }

  /** The files a sink opens, given those an earlier run left: file 0 is there in any case. */
  function Opened(found: seq<seq<string>>): (s: seq<seq<string>>)
    ensures s != []
  {
    if found == [] then [[]] else found
  }

  /** The numbered files of the directory hold what `found` says, and there are no more of them. */
  ghost predicate Left(
    base: string, ext: string, maxFiles: nat, directory: map<string, string>, found: seq<seq<string>>)
  {
    forall i: nat :: i <= maxFiles ==>
      var name := CalcFilename(base, i, ext);
      if i < |found| then name in directory && directory[name] == Bytes(found[i]) else name !in directory
  }

  // ----- the sink -----

  class RotatingFileSink {
    const baseFilename: string
    const extension: string
    const maxSize: nat
    const maxFiles: nat
    var currentSize: nat
    var files: map<string, string>
    // The messages in each file, newest file first.
    ghost var slots: seq<seq<string>>

    function Name(i: nat): string { CalcFilename(baseFilename, i, extension) }

    /** File i of the directory holds slot i, and there is no file from |s| to maxFiles. */
    ghost predicate Holds(d: map<string, string>, s: seq<seq<string>>) {
      && |s| <= maxFiles + 1
      && forall i: nat :: i <= maxFiles ==>
           FileHolds(d, s, i, i)
    }

    ghost predicate Valid()
      reads this
    {
      slots != [] && Holds(files, slots) && currentSize == |Bytes(slots[0])|
    }

    /** A name that is not one of this sink's. */
    ghost predicate Foreign(name: string) {
      forall i: nat :: i <= maxFiles ==> name != Name(i)
    }

    /** The directory holds this sink's files and nothing else. */
    ghost predicate OnlyOurs()
      reads this
    {
      forall f :: f in files ==> exists i: nat :: i < |slots| && f == Name(i)
    }

    lemma NoForeignMeansOnlyOurs()
      requires Valid() && forall f :: Foreign(f) ==> f !in files
      ensures OnlyOurs()
    {
      hide RotatingFileSink.Name;
      forall f | f in files ensures exists i: nat :: i < |slots| && f == Name(i) {
        var i: nat :| i <= maxFiles && f == Name(i);
        assert FileHolds(files, slots, i, i);
      }
    }

    lemma NamesDiffer()
      ensures forall i: nat, j: nat {:trigger Name(i), Name(j)} :: i != j ==> Name(i) != Name(j)
    {
      forall i: nat, j: nat {:trigger Name(i), Name(j)} | i != j ensures Name(i) != Name(j) {
        FilenamesDiffer(baseFilename, i, j, extension);
      }
    }

    /**
     Opens file 0 for appending, in an empty directory or in what an earlier sink left;
     `found` is what the numbered files there hold.
     */
    constructor (base: string, ext: string, maxSize: nat, maxFiles: nat,
                 directory: map<string, string>, ghost found: seq<seq<string>>)
      requires |found| <= maxFiles + 1 && Left(base, ext, maxFiles, directory, found)
      ensures Valid() && this.maxSize == maxSize && this.maxFiles == maxFiles
      ensures this.baseFilename == base && this.extension == ext
      ensures slots == Opened(found)
      ensures var name := CalcFilename(base, 0, ext);
        files == if name in directory then directory else directory[name := ""]
    {
      this.baseFilename, this.extension, this.maxSize, this.maxFiles := base, ext, maxSize, maxFiles;
      var name := CalcFilename(base, 0, ext);
      var d := if name in directory then directory else directory[name := ""];
      this.files := d;
      this.currentSize := |d[name]|;
      this.slots := Opened(found);
      new;
      NamesDiffer();
      assert forall i: nat :: Name(i) == CalcFilename(base, i, ext);
    }

    method SinkIt(msg: string)
      requires Valid()
      modifies this
      ensures Valid() && slots == Logged(old(slots), msg, maxSize, maxFiles)
      ensures SameForeign(old(files), files)
    {
      currentSize := currentSize + |msg|;
      if currentSize > maxSize {
        Rotate();
        currentSize := |msg|;
      }
      NamesDiffer();
      assert FileHolds(files, slots, 0, 0);
      ghost var d, s := files, slots;
      files := files[Name(0) := files[Name(0)] + msg];
      slots := slots[0 := slots[0] + [msg]];
      BytesAppend(s[0], msg);
      forall j: nat | j <= maxFiles ensures FileHolds(files, slots, j, j) { assert FileHolds(d, s, j, j); }
    }

    /** Which of n slots file j holds when the loop is about to treat file i; n for no file. */
    ghost function SlotAt(n: nat, j: nat, i: nat): nat {
      if j > i then j - 1 else if j < i || i == maxFiles then j else n
    }

    /** File j of directory d holds slot k of s, or is missing when there is no such slot. */
    ghost predicate FileHolds(d: map<string, string>, s: seq<seq<string>>, j: nat, k: nat) {
      if k < |s| then Name(j) in d && d[Name(j)] == Bytes(s[k]) else Name(j) !in d
    }

    ghost predicate FileShifted(d: map<string, string>, s: seq<seq<string>>, j: nat, i: nat) {
      FileHolds(d, s, j, SlotAt(|s|, j, i))
    }

    /** Files above i have been shifted up, file i has left its place, the rest are as before. */
    ghost predicate Shifted(d: map<string, string>, s: seq<seq<string>>, i: nat) {
      forall j: nat :: j <= maxFiles ==> FileShifted(d, s, j, i)
    }

    /** Same contents outside this sink's names. */
    ghost predicate SameForeign(d: map<string, string>, d': map<string, string>) {
      forall f :: Foreign(f) ==> (f in d' <==> f in d) && (f in d' ==> d'[f] == d[f])
    }

    /** Removes the target file if there is one, and renames the source if there is one. */
    method MoveFile(src: string, target: string)
      requires src != target
      modifies this`files
      ensures src !in files && (target in files <==> src in old(files))
      ensures src in old(files) ==> files[target] == old(files)[src]
      ensures forall f :: f != src && f != target ==>
        (f in files <==> f in old(files)) && (f in files ==> files[f] == old(files)[f])
    {
      if target in files { files := files - {target}; }
      if src in files { files := files[target := files[src]] - {src}; }
    }

    method ShiftOne(i: nat, ghost s: seq<seq<string>>)
      requires 0 < i <= maxFiles && Shifted(files, s, i)
      modifies this`files
      ensures Shifted(files, s, i - 1) && SameForeign(old(files), files)
    {
      hide RotatingFileSink.Name, Bytes;
      NamesDiffer();
      ghost var d, next: nat := files, i - 1;
      assert FileShifted(d, s, i - 1, i) && FileShifted(d, s, i, i);
      MoveFile(Name(i - 1), Name(i));
      forall j: nat | j <= maxFiles ensures FileShifted(files, s, j, next) {
        assert FileShifted(d, s, j, i);
      }
    }

    /** Renames from the highest index down, then truncates file 0. */
    method Rotate()
      requires slots != [] && Holds(files, slots)
      modifies this`files, this`slots
      ensures slots == Rotated(old(slots), maxFiles) && Holds(files, slots)
      ensures SameForeign(old(files), files)
    {
      hide RotatingFileSink.Name, Bytes;
      NamesDiffer();
      var i := maxFiles;
      while i > 0
        invariant 0 <= i <= maxFiles && slots == old(slots)
        invariant Shifted(files, slots, i) && SameForeign(old(files), files)
      {
        ShiftOne(i, slots);
        i := i - 1;
      }
      EmptyFile();
      ghost var d, next := files, Rotated(slots, maxFiles);
      files := files[Name(0) := ""];
      forall j: nat | j <= maxFiles ensures FileHolds(files, next, j, j) {
        assert FileShifted(d, slots, j, 0);
      }
      slots := next;
    }
  }

  // ----- whole runs -----

  /** The files after logging `ms` on top of those in `start`. */
  function After(start: seq<seq<string>>, ms: seq<string>, maxSize: nat, maxFiles: nat): (s: seq<seq<string>>)
    requires start != []
    ensures s != []
  {
    if ms == [] then start
    else Logged(After(start, ms[..|ms|-1], maxSize, maxFiles), ms[|ms|-1], maxSize, maxFiles)
  }

  /** How often the sink has rotated. */
  function Rotations(start: seq<seq<string>>, ms: seq<string>, maxSize: nat, maxFiles: nat): nat
    requires start != []
  {
    if ms == [] then 0 else
      Rotations(start, ms[..|ms|-1], maxSize, maxFiles) +
      (if NeedsRotation(After(start, ms[..|ms|-1], maxSize, maxFiles), ms[|ms|-1], maxSize) then 1 else 0)
  }

  /** A file is within the limit, or is one message on its own. */
  predicate FileOk(f: seq<string>, maxSize: nat) { |Bytes(f)| <= maxSize || |f| == 1 }

  ghost predicate Suffix(s: seq<string>, ms: seq<string>) {
    |s| <= |ms| && s == ms[|ms| - |s|..]
  }

  lemma {:induction false} ChronicleOfPrefix(slots: seq<seq<string>>, k: nat)
    requires k <= |slots|
    ensures Suffix(Chronicle(slots[..k]), Chronicle(slots))
  {
    if k > 0 {
      assert slots[..k][1..] == slots[1..][..k-1];
      ChronicleOfPrefix(slots[1..], k - 1);
    }
  }

  /** Logging one message adds it at the end and may drop the oldest file, nothing else. */
  lemma LoggedExtends(slots: seq<seq<string>>, msg: string, maxSize: nat, maxFiles: nat)
    requires slots != [] && |slots| <= maxFiles + 1
    ensures var s := Logged(slots, msg, maxSize, maxFiles);
      && Suffix(Chronicle(s), Chronicle(slots) + [msg])
      && (|slots| <= maxFiles || !NeedsRotation(slots, msg, maxSize) ==> Chronicle(s) == Chronicle(slots) + [msg])
      && |s| == (if NeedsRotation(slots, msg, maxSize) && |slots| <= maxFiles then |slots| + 1 else |slots|)
  {
    var s := Logged(slots, msg, maxSize, maxFiles);
    if NeedsRotation(slots, msg, maxSize) {
      var kept := if |slots| <= maxFiles then slots else slots[..maxFiles];
      assert s[1..] == kept && s[0] == [] + [msg];
      ChronicleOfPrefix(slots, |kept|);
      assert slots[..|slots|] == slots;
    } else {
      assert s[1..] == slots[1..];
    }
  }

  /** A file that is not within the limit or a single message was there before the run. */
  ghost predicate FilesOk(start: seq<seq<string>>, s: seq<seq<string>>, maxSize: nat) {
    forall i :: 0 <= i < |s| ==> FileOk(s[i], maxSize) || s[i] in start
  }

  lemma LoggedFilesOk(start: seq<seq<string>>, slots: seq<seq<string>>, msg: string, maxSize: nat, maxFiles: nat)
    requires slots != [] && FilesOk(start, slots, maxSize)
    ensures FilesOk(start, Logged(slots, msg, maxSize, maxFiles), maxSize)
  {
    BytesAppend(slots[0], msg);
    EmptyFile();
  }

  /**
   After r rotations: as many files more, up to the limit; read oldest to newest the files are
   a suffix of what was found and then everything logged, and all of it until the limit is
   passed; every file but those found keeps its size limit or is a single message.
   */
  ghost predicate KeepsRecent(
    start: seq<seq<string>>, s: seq<seq<string>>, r: nat, ms: seq<string>, maxSize: nat, maxFiles: nat)
  {
    && |s| == (if |start| + r <= maxFiles + 1 then |start| + r else maxFiles + 1)
    && Suffix(Chronicle(s), Chronicle(start) + ms)
    && (|start| + r <= maxFiles + 1 ==> Chronicle(s) == Chronicle(start) + ms)
    && FilesOk(start, s, maxSize)
  }

  lemma MessageKeepsRecent(start: seq<seq<string>>, slots: seq<seq<string>>, r: nat, ms: seq<string>, msg: string,
                           maxSize: nat, maxFiles: nat)
    requires slots != [] && KeepsRecent(start, slots, r, ms, maxSize, maxFiles)
    ensures KeepsRecent(start, Logged(slots, msg, maxSize, maxFiles),
      r + (if NeedsRotation(slots, msg, maxSize) then 1 else 0), ms + [msg], maxSize, maxFiles)
  {
    hide Logged, Chronicle, NeedsRotation, FilesOk, Suffix;
    var all := Chronicle(start) + ms;
    LoggedExtends(slots, msg, maxSize, maxFiles);
    LoggedFilesOk(start, slots, msg, maxSize, maxFiles);
    SuffixAppend(Chronicle(slots), all, msg);
    SuffixTransitive(Chronicle(Logged(slots, msg, maxSize, maxFiles)), Chronicle(slots) + [msg], all + [msg]);
    Associates(Chronicle(start), ms, [msg]);
  }

  lemma Associates(a: seq<string>, b: seq<string>, c: seq<string>)
    ensures a + b + c == a + (b + c)
  {
  }

  lemma NothingLoggedYet(start: seq<seq<string>>, maxSize: nat, maxFiles: nat)
    requires |start| <= maxFiles + 1
    ensures KeepsRecent(start, start, 0, [], maxSize, maxFiles)
  {
    assert Chronicle(start) + [] == Chronicle(start);
  }

  lemma {:induction false} RunKeepsRecent(start: seq<seq<string>>, ms: seq<string>, maxSize: nat, maxFiles: nat)
    requires start != [] && |start| <= maxFiles + 1
    ensures KeepsRecent(start, After(start, ms, maxSize, maxFiles), Rotations(start, ms, maxSize, maxFiles), ms,
                        maxSize, maxFiles)
  {
    hide KeepsRecent;
    if ms == [] {
      NothingLoggedYet(start, maxSize, maxFiles);
    } else {
      var before, msg := ms[..|ms|-1], ms[|ms|-1];
      RunKeepsRecent(start, before, maxSize, maxFiles);
      MessageKeepsRecent(start, After(start, before, maxSize, maxFiles), Rotations(start, before, maxSize, maxFiles),
                         before, msg, maxSize, maxFiles);
      assert ms == before + [msg];
    }
  }

  /** From an empty directory: everything logged until the limit is passed, and no exception to the sizes. */
  lemma RunFromEmpty(ms: seq<string>, maxSize: nat, maxFiles: nat)
    ensures var s := After(Opened([]), ms, maxSize, maxFiles);
      var r := Rotations(Opened([]), ms, maxSize, maxFiles);
      && |s| == 1 + (if r <= maxFiles then r else maxFiles)
      && Suffix(Chronicle(s), ms) && (r <= maxFiles ==> Chronicle(s) == ms)
      && forall i :: 0 <= i < |s| ==> FileOk(s[i], maxSize)
  {
    hide After, Rotations;
    RunKeepsRecent([[]], ms, maxSize, maxFiles);
    EmptyFile();
    assert Chronicle([[]]) == [] && [] + ms == ms;
  }

  lemma SuffixAppend(a: seq<string>, b: seq<string>, m: string)
    requires Suffix(a, b)
    ensures Suffix(a + [m], b + [m])
  {
  }

  lemma SuffixTransitive(a: seq<string>, b: seq<string>, c: seq<string>)
    requires Suffix(a, b) && Suffix(b, c)
    ensures Suffix(a, c)
  {
  }

  /**
   A sink opened over what earlier runs left and given every message in turn: its files keep the
   recent messages, files of other names stay as they were, and if there were none the
   directory holds the files of the run and nothing else.
   */
  method LogAll(base: string, ext: string, maxSize: nat, maxFiles: nat,
                directory: map<string, string>, ghost found: seq<seq<string>>, ms: seq<string>)
    returns (sink: RotatingFileSink)
    requires |found| <= maxFiles + 1 && Left(base, ext, maxFiles, directory, found)
    ensures sink.Valid() && sink.maxFiles == maxFiles && sink.baseFilename == base && sink.extension == ext
    ensures sink.slots == After(Opened(found), ms, maxSize, maxFiles)
    ensures KeepsRecent(Opened(found), sink.slots, Rotations(Opened(found), ms, maxSize, maxFiles), ms,
                        maxSize, maxFiles)
    ensures sink.SameForeign(directory, sink.files)
    ensures (forall f :: sink.Foreign(f) ==> f !in directory) ==> sink.OnlyOurs()
  {
    hide KeepsRecent, Logged, Left;
    ghost var start := Opened(found);
    sink := new RotatingFileSink(base, ext, maxSize, maxFiles, directory, found);
    assert sink.Name(0) == CalcFilename(base, 0, ext);
    for i := 0 to |ms|
      invariant sink.Valid() && sink.maxFiles == maxFiles && sink.maxSize == maxSize && fresh(sink)
      invariant sink.baseFilename == base && sink.extension == ext
      invariant sink.slots == After(start, ms[..i], maxSize, maxFiles)
      invariant sink.SameForeign(directory, sink.files)
    {
      sink.SinkIt(ms[i]);
      assert ms[..i+1][..i] == ms[..i];
    }
    assert ms[..|ms|] == ms;
    if forall f :: sink.Foreign(f) ==> f !in directory { sink.NoForeignMeansOnlyOurs(); }
    RunKeepsRecent(start, ms, maxSize, maxFiles);
  }

  /** The newest message is always in file 0, at its end. */
  lemma NewestIsKept(start: seq<seq<string>>, ms: seq<string>, maxSize: nat, maxFiles: nat)
    requires start != [] && ms != []
    ensures var f := After(start, ms, maxSize, maxFiles)[0]; f != [] && f[|f|-1] == ms[|ms|-1]
  {
  }

  /** The newer of two files starts with a message that did not fit into the older one any more. */
  ghost predicate ClosedFull(s: seq<seq<string>>, i: nat, maxSize: nat)
    requires i + 1 < |s|
  {
    s[i] != [] && |Bytes(s[i + 1])| + |s[i][0]| > maxSize
  }

  /** The files closed in the last r rotations, as far as they are still there, were closed full. */
  ghost predicate AllClosedFull(s: seq<seq<string>>, r: nat, maxSize: nat) {
    forall i: nat :: i < r && i + 1 < |s| ==> ClosedFull(s, i, maxSize)
  }

  lemma LoggedClosesFull(slots: seq<seq<string>>, r: nat, msg: string, maxSize: nat, maxFiles: nat)
    requires slots != [] && AllClosedFull(slots, r, maxSize)
    ensures AllClosedFull(Logged(slots, msg, maxSize, maxFiles),
                          r + (if NeedsRotation(slots, msg, maxSize) then 1 else 0), maxSize)
  {
    hide Bytes;
    var s := Logged(slots, msg, maxSize, maxFiles);
    var k := if NeedsRotation(slots, msg, maxSize) then 1 else 0;
    forall i: nat | i < r + k && i + 1 < |s| ensures ClosedFull(s, i, maxSize) {
      if k == 1 && i > 0 {
        assert ClosedFull(slots, i - 1, maxSize);
      } else if k == 0 {
        assert ClosedFull(slots, i, maxSize);
      }
    }
  }

  /**
   A file is closed only when the next message would not fit: after any messages, of two neighbours
   that this run has parted the newer one starts with a message too long for the older one.
   */
  lemma {:induction false} RunClosesFull(start: seq<seq<string>>, ms: seq<string>, maxSize: nat, maxFiles: nat)
    requires start != []
    ensures AllClosedFull(After(start, ms, maxSize, maxFiles), Rotations(start, ms, maxSize, maxFiles), maxSize)
  {
    hide AllClosedFull, Logged, NeedsRotation;
    if ms == [] {
      NoneClosed(start, maxSize);
    } else {
      var before := ms[..|ms|-1];
      RunClosesFull(start, before, maxSize, maxFiles);
      LoggedClosesFull(After(start, before, maxSize, maxFiles), Rotations(start, before, maxSize, maxFiles),
                       ms[|ms|-1], maxSize, maxFiles);
    }
  }

  lemma NoneClosed(s: seq<seq<string>>, maxSize: nat)
    ensures AllClosedFull(s, 0, maxSize)
  {
  }
}
