/** The size-based rotating file sink. */
module RotatingSink {
  import opened Wrappers
  import opened Numerals

  // ----- file names -----

  function CalcFilename(name: string, index: nat, extension: string): string {
    if index != 0 then name + ("." + (Decimal(index) + ("." + extension))) else name + ("." + extension)
  }

  lemma NumberedTail(name: string, i: nat, extension: string)
    requires i != 0
    ensures CalcFilename(name, i, extension)[|name| + 1..] == Decimal(i) + ("." + extension)
  {
  }

  /** Different indexes have different files. */
  lemma FilenamesDiffer(name: string, i: nat, j: nat, extension: string)
    ensures CalcFilename(name, i, extension) == CalcFilename(name, j, extension) <==> i == j
  {
    if i != 0 && j != 0 {
      if CalcFilename(name, i, extension) == CalcFilename(name, j, extension) {
        NumberedTail(name, i, extension);
        NumberedTail(name, j, extension);
        NumeralsInFront(Decimal(i), Decimal(j), "." + extension);
        NumeralInjective(i, j, 10, false);
      }
    } else if i != 0 {
      assert |CalcFilename(name, i, extension)| > |CalcFilename(name, j, extension)|;
    } else if j != 0 {
      assert |CalcFilename(name, j, extension)| > |CalcFilename(name, i, extension)|;
    }
  }

  /** File 0 is name.extension, file i is name.i.extension with i written in decimal. */
  lemma FilenameShape(name: string, index: nat, extension: string) returns (digits: string)
    ensures digits != "" && AllDigits(digits) && Value(digits, 10) == index
    ensures CalcFilename(name, index, extension)
      == if index == 0 then name + "." + extension else name + "." + digits + "." + extension
  {
    digits := Decimal(index);
    DecimalDigits(index);
    NumeralReadsBack(index, 10, false);
    NamePieces(name, ".", digits, extension);
    hide Value, AllDigits;
  }

  lemma NamePieces(name: string, dot: string, digits: string, extension: string)
    ensures name + (dot + (digits + (dot + extension))) == name + dot + digits + dot + extension
    ensures name + (dot + extension) == name + dot + extension
  {
  }

  lemma NumeralsInFront(a: string, b: string, tail: string)
    requires a + tail == b + tail
    ensures a == b
  {
    assert |a| == |b|;
    assert (a + tail)[..|a|] == a && (b + tail)[..|b|] == b;
  }

  // ----- the files of one sink, by index -----

  type Files = seq<Option<string>>

  function Content(file: Option<string>): string {
    match file case Some(text) => text case None => ""
  }

  /** A rotation: every file moves up by one, absent ones too, the last is lost, file 0 starts empty. */
  function Rotated(files: Files): (r: Files)
    requires files != []
    ensures |r| == |files|
  {
    [Some("")] + files[..|files| - 1]
  }

  /** One message. */
  function Sink(files: Files, msg: string, maxSize: nat): (r: Files)
    requires files != []
    ensures |r| == |files|
  {
    if |Content(files[0])| + |msg| > maxSize then Rotated(files)[0 := Some(msg)]
    else files[0 := Some(Content(files[0]) + msg)]
  }

  function SinkAll(files: Files, msgs: seq<string>, maxSize: nat): (r: Files)
    requires files != []
    ensures |r| == |files|
    decreases |msgs|
  {
    if msgs == [] then files else SinkAll(Sink(files, msgs[0], maxSize), msgs[1..], maxSize)
  }

  // ----- the directory and the sink -----

  class Directory {
    var files: map<string, string>

    constructor (files: map<string, string>)
      ensures this.files == files
    {
      this.files := files;
    }

    method Remove(name: string)
      modifies this
      ensures files == old(files) - {name}
    {
      files := files - {name};
    }

    method Rename(source: string, target: string)
      requires source in files && source != target
      modifies this
      ensures files == (old(files) - {source})[target := old(files)[source]]
    {
      files := (files - {source})[target := files[source]];
    }

    method Open(name: string, truncate: bool)
      modifies this
      ensures files == old(files)[name := if truncate || name !in old(files) then "" else old(files)[name]]
    {
      files := files[name := if truncate || name !in files then "" else files[name]];
    }

    method Write(name: string, text: string)
      requires name in files
      modifies this
      ensures files == old(files)[name := old(files)[name] + text]
    {
      files := files[name := files[name] + text];
    }
  }

  class RotatingFileSink {
    const dir: Directory
    const baseFilename: string
    const extension: string
    const maxSize: nat
    const maxFiles: nat
    var currentSize: nat

    function Name(index: nat): string {
      CalcFilename(baseFilename, index, extension)
    }

    function Lookup(files: map<string, string>, index: nat): Option<string> {
      if Name(index) in files then Some(files[Name(index)]) else None
    }

    function At(index: nat): Option<string>
      reads dir
    {
      Lookup(dir.files, index)
    }

    /** The sink's own files, newest first. */
    function All(): (r: Files)
      reads dir
      ensures |r| == maxFiles + 1 && forall i :: 0 <= i <= maxFiles ==> r[i] == At(i)
    {
      var files := dir.files;
      seq(maxFiles + 1, i requires 0 <= i => Lookup(files, i))
    }

    predicate Mine(name: string) {
      exists i :: 0 <= i <= maxFiles && Name(i) == name
    }

    /** The open file exists and the counter is its length. */
    predicate Valid()
      reads this, dir
    {
      At(0).Some? && currentSize == |At(0).value|
    }

    twostate predicate OthersUnchanged()
      reads dir
    {
      forall name :: !Mine(name) ==>
        (name in dir.files <==> name in old(dir.files)) && (name in dir.files ==> dir.files[name] == old(dir.files)[name])
    }

    constructor (dir: Directory, baseFilename: string, extension: string, maxSize: nat, maxFiles: nat)
      modifies dir
      ensures this.dir == dir && this.baseFilename == baseFilename && this.extension == extension
      ensures this.maxSize == maxSize && this.maxFiles == maxFiles && Valid()
      ensures var name := CalcFilename(baseFilename, 0, extension);
        dir.files == old(dir.files)[name := if name in old(dir.files) then old(dir.files)[name] else ""]
    {
      this.dir, this.baseFilename, this.extension := dir, baseFilename, extension;
      this.maxSize, this.maxFiles := maxSize, maxFiles;
      currentSize := 0;
      new;
      dir.Open(Name(0), false);
      currentSize := |dir.files[Name(0)]|;
    }

    lemma NamesDiffer(i: nat, j: nat)
      ensures Name(i) == Name(j) <==> i == j
    {
      FilenamesDiffer(baseFilename, i, j, extension);
    }

    /** Shifts one file: whatever index i - 1 held is now at i. */
    method Shift(i: nat)
      requires 0 < i <= maxFiles
      modifies dir
      ensures At(i) == old(At(i - 1)) && At(i - 1) == None
      ensures forall j :: 0 <= j <= maxFiles && j != i && j != i - 1 ==> At(j) == old(At(j))
      ensures OthersUnchanged()
    {
      hide CalcFilename;
      NamesDiffer(i, i - 1);
      forall j | 0 <= j <= maxFiles && j != i && j != i - 1
        ensures Name(j) != Name(i) && Name(j) != Name(i - 1)
      {
        NamesDiffer(j, i);
        NamesDiffer(j, i - 1);
      }
      var source, target := Name(i - 1), Name(i);
      if target in dir.files { dir.Remove(target); }
      if source in dir.files { dir.Rename(source, target); }
    }

    /** Reopening with truncation. */
    method Truncate()
      modifies dir
      ensures At(0) == Some("") && forall j :: 0 < j <= maxFiles ==> At(j) == old(At(j))
      ensures OthersUnchanged()
    {
      hide CalcFilename;
      forall j | 0 < j <= maxFiles ensures Name(j) != Name(0) { NamesDiffer(j, 0); }
      dir.Open(Name(0), true);
    }

    /** log -> log.1 -> log.2 -> ..., and an empty log. */
    method Rotate()
      modifies dir
      ensures All() == Rotated(old(All())) && OthersUnchanged()
    {
      hide CalcFilename, At, Mine;
      ghost var before := All();
      var i := maxFiles;
      while i > 0
        invariant 0 <= i <= maxFiles
        invariant forall j :: i < j <= maxFiles ==> At(j) == before[j - 1]
        invariant forall j :: 0 <= j < i ==> At(j) == before[j]
        invariant OthersUnchanged()
      {
        Shift(i);
        i := i - 1;
      }
      Truncate();
    }

    method SinkIt(msg: string)
      requires Valid()
      modifies this, dir
      ensures Valid() && All() == Sink(old(All()), msg, maxSize) && OthersUnchanged()
    {
      hide CalcFilename;
      currentSize := currentSize + |msg|;
      if currentSize > maxSize {
        Rotate();
        assert At(0) == All()[0] == Some("");
        currentSize := |msg|;
      }
      forall j | 0 < j <= maxFiles ensures Name(j) != Name(0) { NamesDiffer(j, 0); }
      label W:
      dir.Write(Name(0), msg);
      assert forall j :: 0 < j <= maxFiles ==> At(j) == old@W(At(j));
      assert All() == old@W(All())[0 := Some(Content(old@W(At(0))) + msg)];
      assert "" + msg == msg;
    }
  }

  // ----- runs, message by message -----

  /** A file as the pieces it was written in: what it held at first is one piece, every message is
      another. */
  type Pieces = Option<seq<string>>

  function Flat(pieces: seq<string>): string {
    if pieces == [] then "" else Flat(pieces[..|pieces| - 1]) + pieces[|pieces| - 1]
  }

  function TextOf(p: Pieces): Option<string> {
    match p case None => None case Some(pieces) => Some(Flat(pieces))
  }

  function TextsOf(log: seq<Pieces>): (r: Files)
    ensures |r| == |log| && forall i :: 0 <= i < |log| ==> r[i] == TextOf(log[i])
  {
    seq(|log|, i requires 0 <= i < |log| => TextOf(log[i]))
  }

  function Before(files: Files): (log: seq<Pieces>)
    ensures |log| == |files|
  {
    seq(|files|, i requires 0 <= i < |files| => match files[i] case Some(text) => Some([text]) case None => None)
  }

  function PiecesOf(p: Pieces): seq<string> {
    match p case None => [] case Some(pieces) => pieces
  }

  function SinkPieces(log: seq<Pieces>, msg: string, maxSize: nat): (r: seq<Pieces>)
    requires log != []
    ensures |r| == |log|
  {
    if |Flat(PiecesOf(log[0]))| + |msg| > maxSize then [Some([msg])] + log[..|log| - 1]
    else log[0 := Some(PiecesOf(log[0]) + [msg])]
  }

  function SinkAllPieces(log: seq<Pieces>, msgs: seq<string>, maxSize: nat): (r: seq<Pieces>)
    requires log != []
    ensures |r| == |log|
    decreases |msgs|
  {
    if msgs == [] then log else SinkAllPieces(SinkPieces(log, msgs[0], maxSize), msgs[1..], maxSize)
  }

  lemma FlatSnoc(pieces: seq<string>, p: string)
    ensures Flat(pieces + [p]) == Flat(pieces) + p
  {
    assert (pieces + [p])[..|pieces|] == pieces;
  }

  lemma FlatOne(p: string)
    ensures Flat([p]) == p
  {
    FlatSnoc([], p);
    assert [] + [p] == [p] && "" + p == p;
  }

  /** The pieces describe the files: writing a message never touches another piece. */
  lemma StepInPieces(log: seq<Pieces>, msg: string, maxSize: nat)
    requires log != []
    ensures TextsOf(SinkPieces(log, msg, maxSize)) == Sink(TextsOf(log), msg, maxSize)
  {
    assert Content(TextsOf(log)[0]) == Flat(PiecesOf(log[0]));
    FlatSnoc(PiecesOf(log[0]), msg);
    FlatOne(msg);
    hide Flat;
  }

  lemma {:induction false} RunInPieces(log: seq<Pieces>, msgs: seq<string>, maxSize: nat)
    requires log != []
    ensures TextsOf(SinkAllPieces(log, msgs, maxSize)) == SinkAll(TextsOf(log), msgs, maxSize)
    decreases |msgs|
  {
    if msgs != [] {
      StepInPieces(log, msgs[0], maxSize);
      RunInPieces(SinkPieces(log, msgs[0], maxSize), msgs[1..], maxSize);
    }
  }

  lemma BeforeTexts(files: Files)
    ensures TextsOf(Before(files)) == files
  {
    forall i | 0 <= i < |files| ensures TextsOf(Before(files))[i] == files[i] {
      if files[i].Some? { FlatOne(files[i].value); }
    }
  }

  /** All pieces, oldest file first. */
  function Chronicle(log: seq<Pieces>): seq<string> {
    if log == [] then [] else Chronicle(log[1..]) + PiecesOf(log[0])
  }

  /** What a step drops: the oldest file, when it rotates. */
  function Lost(log: seq<Pieces>, msg: string, maxSize: nat): seq<string>
    requires log != []
  {
    if |Flat(PiecesOf(log[0]))| + |msg| > maxSize then PiecesOf(log[|log| - 1]) else []
  }

  lemma {:induction false} ChronicleInit(log: seq<Pieces>)
    requires log != []
    ensures Chronicle(log) == PiecesOf(log[|log| - 1]) + Chronicle(log[..|log| - 1])
  {
    hide PiecesOf;
    if |log| > 1 {
      ChronicleInit(log[1..]);
      assert log[1..][..|log| - 2] == log[..|log| - 1][1..];
    } else {
      assert Chronicle(log[1..]) == [] && Chronicle(log[..0]) == [];
      assert [] + PiecesOf(log[0]) == PiecesOf(log[0]) + [];
    }
  }

  lemma StepChronicle(log: seq<Pieces>, msg: string, maxSize: nat)
    requires log != []
    ensures Chronicle(log) + [msg] == Lost(log, msg, maxSize) + Chronicle(SinkPieces(log, msg, maxSize))
  {
    hide Flat;
    var next := SinkPieces(log, msg, maxSize);
    if |Flat(PiecesOf(log[0]))| + |msg| > maxSize {
      ChronicleInit(log);
      assert next[1..] == log[..|log| - 1];
    } else {
      assert next[1..] == log[1..];
    }
  }

  function LostAll(log: seq<Pieces>, msgs: seq<string>, maxSize: nat): seq<string>
    requires log != []
    decreases |msgs|
  {
    if msgs == [] then []
    else Lost(log, msgs[0], maxSize) + LostAll(SinkPieces(log, msgs[0], maxSize), msgs[1..], maxSize)
  }

  lemma {:induction false} RunChronicle(log: seq<Pieces>, msgs: seq<string>, maxSize: nat)
    requires log != []
    ensures Chronicle(log) + msgs == LostAll(log, msgs, maxSize) + Chronicle(SinkAllPieces(log, msgs, maxSize))
    decreases |msgs|
  {
    hide Chronicle, Lost, SinkPieces;
    if msgs == [] {
      assert Chronicle(log) + [] == [] + Chronicle(log);
    } else {
      var next := SinkPieces(log, msgs[0], maxSize);
      StepChronicle(log, msgs[0], maxSize);
      RunChronicle(next, msgs[1..], maxSize);
      Shifted(Chronicle(log), msgs, Lost(log, msgs[0], maxSize), Chronicle(next),
        LostAll(next, msgs[1..], maxSize), Chronicle(SinkAllPieces(next, msgs[1..], maxSize)));
    }
  }

  lemma Shifted(c: seq<string>, msgs: seq<string>, lost: seq<string>, next: seq<string>, more: seq<string>, end: seq<string>)
    requires msgs != [] && c + [msgs[0]] == lost + next && next + msgs[1..] == more + end
    ensures c + msgs == (lost + more) + end
  {
    assert c + msgs == (c + [msgs[0]]) + msgs[1..];
    assert (lost + next) + msgs[1..] == lost + (next + msgs[1..]);
    assert lost + (more + end) == (lost + more) + end;
  }

  /** A file is within the limit, or it is a single piece. */
  predicate WithinLimit(log: seq<Pieces>, maxSize: nat) {
    forall i :: 0 <= i < |log| && log[i].Some? ==> |Flat(log[i].value)| <= maxSize || |log[i].value| == 1
  }

  lemma {:induction false} RunWithinLimit(log: seq<Pieces>, msgs: seq<string>, maxSize: nat)
    requires log != [] && WithinLimit(log, maxSize)
    ensures WithinLimit(SinkAllPieces(log, msgs, maxSize), maxSize)
    decreases |msgs|
  {
    if msgs != [] {
      FlatSnoc(PiecesOf(log[0]), msgs[0]);
      RunWithinLimit(SinkPieces(log, msgs[0], maxSize), msgs[1..], maxSize);
    }
  }

  /** Every piece was in a file at first, or is a message. */
  predicate PiecesFrom(log: seq<Pieces>, first: Files, msgs: seq<string>) {
    forall i, k :: 0 <= i < |log| && log[i].Some? && 0 <= k < |log[i].value| ==>
      Some(log[i].value[k]) in first || log[i].value[k] in msgs
  }

  lemma {:induction false} RunPiecesFrom(log: seq<Pieces>, first: Files, all: seq<string>, msgs: seq<string>, maxSize: nat)
    requires log != [] && PiecesFrom(log, first, all) && forall m :: m in msgs ==> m in all
    ensures PiecesFrom(SinkAllPieces(log, msgs, maxSize), first, all)
    decreases |msgs|
  {
    hide Flat;
    if msgs != [] {
      assert msgs[0] in msgs;
      var next := SinkPieces(log, msgs[0], maxSize);
      forall i, k | 0 <= i < |next| && next[i].Some? && 0 <= k < |next[i].value|
        ensures Some(next[i].value[k]) in first || next[i].value[k] in all
      {
        StepPiece(log, msgs[0], maxSize, i, k);
      }
      RunPiecesFrom(next, first, all, msgs[1..], maxSize);
    }
  }

  /** A piece of a step's result is the message, or was a piece before. */
  lemma StepPiece(log: seq<Pieces>, msg: string, maxSize: nat, i: nat, k: nat)
    requires log != [] && i < |log| && SinkPieces(log, msg, maxSize)[i].Some? && k < |SinkPieces(log, msg, maxSize)[i].value|
    ensures var piece := SinkPieces(log, msg, maxSize)[i].value[k];
      piece == msg || exists j, l :: 0 <= j < |log| && log[j].Some? && 0 <= l < |log[j].value| && log[j].value[l] == piece
  {
    hide Flat;
    var piece := SinkPieces(log, msg, maxSize)[i].value[k];
    if piece != msg {
      var j := if |Flat(PiecesOf(log[0]))| + |msg| > maxSize then i - 1 else i;
      assert log[j].Some? && log[j].value[k] == piece;
    }
  }

  lemma SinglePiece(log: seq<Pieces>, i: nat)
    requires i < |log| && log[i].Some? && |log[i].value| == 1
    ensures TextOf(log[i]) == Some(log[i].value[0])
  {
    FlatOne(log[i].value[0]);
    assert log[i].value == [log[i].value[0]];
  }

  /** Over any run: the files, oldest first, are a suffix of the first contents and the messages,
      cut between two messages (or first files) only; what is missing is what rotation dropped; and
      every file is at most maxSize long or a single piece. */
  lemma FilesAreSuffix(files: Files, msgs: seq<string>, maxSize: nat)
    requires files != []
    ensures var log := SinkAllPieces(Before(files), msgs, maxSize);
      && TextsOf(log) == SinkAll(files, msgs, maxSize)
      && Chronicle(Before(files)) + msgs == LostAll(Before(files), msgs, maxSize) + Chronicle(log)
      && WithinLimit(log, maxSize)
  {
    BeforeTexts(files);
    RunInPieces(Before(files), msgs, maxSize);
    RunChronicle(Before(files), msgs, maxSize);
    RunWithinLimit(Before(files), msgs, maxSize);
  }

  /** The size limit, for every file after every run: a longer file is one single message, or a file
      that was found that way and has not been written to. */
  lemma SizeLimit(files: Files, msgs: seq<string>, maxSize: nat, i: nat)
    requires files != [] && i < |files| && SinkAll(files, msgs, maxSize)[i].Some?
    ensures var text := SinkAll(files, msgs, maxSize)[i].value;
      |text| <= maxSize || text in msgs || Some(text) in files
  {
    hide SinkAllPieces, SinkAll, PiecesFrom, WithinLimit, Flat, Before, Chronicle, LostAll;
    var log := SinkAllPieces(Before(files), msgs, maxSize);
    FilesAreSuffix(files, msgs, maxSize);
    FirstPieces(files, msgs);
    RunPiecesFrom(Before(files), files, msgs, msgs, maxSize);
    assert TextsOf(log)[i] == TextOf(log[i]);
    LongFile(log, files, msgs, maxSize, i);
  }

  lemma FirstPieces(files: Files, msgs: seq<string>)
    ensures PiecesFrom(Before(files), files, msgs)
  {
  }

  lemma LongFile(log: seq<Pieces>, files: Files, msgs: seq<string>, maxSize: nat, i: nat)
    requires PiecesFrom(log, files, msgs) && WithinLimit(log, maxSize) && i < |log| && log[i].Some?
    ensures var text := TextOf(log[i]).value; |text| <= maxSize || text in msgs || Some(text) in files
  {
    if |log[i].value| == 1 { SinglePiece(log, i); }
    hide Flat;
  }

  /** If what was found is within the limit, as it is when the constructor creates file 0 in a fresh
      directory, then from the first message on no file ever exceeds it, except as one larger message. */
  lemma FreshLimit(files: Files, msgs: seq<string>, maxSize: nat, i: nat)
    requires files != [] && forall j :: 0 <= j < |files| && files[j].Some? ==> |files[j].value| <= maxSize
    requires i < |files| && SinkAll(files, msgs, maxSize)[i].Some?
    ensures var text := SinkAll(files, msgs, maxSize)[i].value;
      |text| <= maxSize || text in msgs
  {
    SizeLimit(files, msgs, maxSize, i);
  }

  /** A file that was created empty, by the constructor for one, never exceeds the limit, wherever
      rotations have moved it since. */
  lemma CreatedEmpty(files: Files, msgs: seq<string>, maxSize: nat, i: nat)
    requires files != [] && i < |files|
    requires var p := SinkAllPieces(Before(files), msgs, maxSize)[i]; p.Some? && p.value != [] && p.value[0] == ""
    ensures var text := SinkAll(files, msgs, maxSize)[i]; text.Some? && |text.value| <= maxSize
  {
    var log := SinkAllPieces(Before(files), msgs, maxSize);
    FilesAreSuffix(files, msgs, maxSize);
    assert TextsOf(log)[i] == TextOf(log[i]);
    if |log[i].value| == 1 { SinglePiece(log, i); }
  }

  // ----- when a rotation happens -----

  lemma {:induction false} FlatCons(first: string, rest: seq<string>)
    ensures Flat([first] + rest) == first + Flat(rest)
  {
    if rest == [] {
      assert [first] + [] == [first];
      FlatOne(first);
    } else {
      var init, last := rest[..|rest| - 1], rest[|rest| - 1];
      FlatCons(first, init);
      FlatSnoc([first] + init, last);
      assert [first] + rest == ([first] + init) + [last];
      assert (first + Flat(init)) + last == first + (Flat(init) + last);
    }
  }

  /** No needless rotation: as long as everything fits into file 0, it goes there, in order, and no
      other file changes. */
  lemma {:induction false} StaysInFile(files: Files, msgs: seq<string>, maxSize: nat)
    requires files != [] && files[0].Some? && |files[0].value| + |Flat(msgs)| <= maxSize
    ensures SinkAll(files, msgs, maxSize) == files[0 := Some(files[0].value + Flat(msgs))]
    decreases |msgs|
  {
    if msgs == [] {
      assert files[0].value + "" == files[0].value;
    } else {
      assert msgs == [msgs[0]] + msgs[1..];
      FlatCons(msgs[0], msgs[1..]);
      hide Flat;
      var next := files[0 := Some(files[0].value + msgs[0])];
      StaysInFile(next, msgs[1..], maxSize);
      assert (files[0].value + msgs[0]) + Flat(msgs[1..]) == files[0].value + (msgs[0] + Flat(msgs[1..]));
      assert next[0 := Some(files[0].value + Flat(msgs))] == files[0 := Some(files[0].value + Flat(msgs))];
    }
  }

  lemma {:induction false} SinkAllSnoc(files: Files, msgs: seq<string>, m: string, maxSize: nat)
    requires files != []
    ensures SinkAll(files, msgs + [m], maxSize) == Sink(SinkAll(files, msgs, maxSize), m, maxSize)
    decreases |msgs|
  {
    hide Sink;
    if msgs == [] {
      assert ([] + [m])[1..] == [];
      assert SinkAll(files, [m], maxSize) == SinkAll(Sink(files, m, maxSize), [], maxSize);
      assert [] + [m] == [m];
    } else {
      assert (msgs + [m])[1..] == msgs[1..] + [m];
      SinkAllSnoc(Sink(files, msgs[0], maxSize), msgs[1..], m, maxSize);
    }
  }

  /** The first message that does not fit any more starts a new file 0, alone; every file moves up by
      one and only the last is lost. */
  lemma RotatesWhenFull(files: Files, msgs: seq<string>, m: string, maxSize: nat)
    requires files != [] && files[0].Some? && |files[0].value| + |Flat(msgs)| <= maxSize
    requires |files[0].value| + |Flat(msgs)| + |m| > maxSize
    ensures var full := files[0].value + Flat(msgs);
      SinkAll(files, msgs + [m], maxSize) == ([Some(m), Some(full)] + files[1..])[..|files|]
  {
    StaysInFile(files, msgs, maxSize);
    SinkAllSnoc(files, msgs, m, maxSize);
    hide Flat, SinkAll;
    var full := files[0].value + Flat(msgs);
    MovedUp(files, files[0 := Some(full)], Some(full), Some(m));
  }

  lemma MovedUp(files: Files, before: Files, full: Option<string>, m: Option<string>)
    requires files != [] && before == files[0 := full]
    ensures Rotated(before)[0 := m] == ([m, full] + files[1..])[..|files|]
  {
    var r, e := Rotated(before)[0 := m], ([m, full] + files[1..])[..|files|];
    assert |r| == |e| && r[0] == e[0];
    forall i | 1 <= i < |files| ensures r[i] == e[i] {
      assert r[i] == before[i - 1];
      assert i > 1 ==> e[i] == files[1..][i - 2];
    }
  }
}
