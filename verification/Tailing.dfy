/** Following one growing file by byte offset: `FileTailer` of pipeline/watch.py. */
module Tailing {
  import opened Models
  import opened Sequences

  newtype Byte = b: int | 0 <= b < 256

  type Bytes = seq<Byte>

  const NEWLINE: Byte := 10
  const CARRIAGE_RETURN: Byte := 13

  /** UTF-8 decoding of one line, never looked into. */
  type Decoder = Bytes -> string

  // ---------------------------------------------------------------------------
  // Splitting into lines
  // ---------------------------------------------------------------------------

  /** Python's `data.split(b"\n")`. */
  function Split(data: Bytes): (parts: seq<Bytes>)
    ensures parts != []
  {
    if data == [] then [[]]
    else
      var parts, b := Split(data[..|data| - 1]), data[|data| - 1];
      if b == NEWLINE then parts + [[]]
      else parts[..|parts| - 1] + [parts[|parts| - 1] + [b]]
  }

  function Join(parts: seq<Bytes>): Bytes
    requires parts != []
  {
    if |parts| == 1 then parts[0] else Join(parts[..|parts| - 1]) + [NEWLINE] + parts[|parts| - 1]
  }

  ghost predicate NewlineFree(parts: seq<Bytes>) {
    forall part | part in parts :: NEWLINE !in part
  }

  /** Splitting loses nothing and the parts are lines. */
  lemma {:induction false} SplitJoins(data: Bytes)
    ensures Join(Split(data)) == data && NewlineFree(Split(data))
  {
    if data != [] {
      var front, b := data[..|data| - 1], data[|data| - 1];
      SplitJoins(front);
      var parts := Split(front);
      var last := parts[|parts| - 1];
      assert data == front + [b];
      assert last in parts;
      if b == NEWLINE {
        assert (parts + [[]])[..|parts|] == parts;
      } else {
        assert (parts[..|parts| - 1] + [last + [b]])[..|parts| - 1] == parts[..|parts| - 1];
        assert forall part | part in parts[..|parts| - 1] :: part in parts;
      }
    }
  }

  lemma SplitSnoc(data: Bytes, b: Byte)
    ensures var parts := Split(data);
            Split(data + [b]) == if b == NEWLINE then parts + [[]]
                                 else parts[..|parts| - 1] + [parts[|parts| - 1] + [b]]
  {
    assert (data + [b])[..|data|] == data;
  }

  lemma JoinSnoc(front: seq<Bytes>, line: Bytes, b: Byte)
    ensures Join(front + [line + [b]]) == Join(front + [line]) + [b]
    ensures front != [] ==> Join(front + [[]]) == Join(front) + [NEWLINE]
  {
    assert (front + [line])[..|front|] == front && (front + [line + [b]])[..|front|] == front;
    assert (front + [[]])[..|front|] == front;
    if front != [] {
      assert Join(front) + [NEWLINE] + (line + [b]) == Join(front) + [NEWLINE] + line + [b];
    }
  }

  /** And nothing else has these two properties. */
  lemma {:induction false} SplitIsUnique(parts: seq<Bytes>)
    requires parts != [] && NewlineFree(parts)
    ensures Split(Join(parts)) == parts
    decreases |parts|, |parts[|parts| - 1]|
  {
    hide Split;
    var front, last := parts[..|parts| - 1], parts[|parts| - 1];
    assert parts == front + [last] && last in parts;
    if last != [] {
      var init, b := last[..|last| - 1], last[|last| - 1];
      assert last == init + [b] && b in last;
      var shorter := front + [init];
      assert forall part | part in front :: part in parts;
      SplitIsUnique(shorter);
      JoinSnoc(front, init, b);
      SplitSnoc(Join(shorter), b);
    } else if front != [] {
      assert forall part | part in front :: part in parts;
      SplitIsUnique(front);
      JoinSnoc(front, [], NEWLINE);
      SplitSnoc(Join(front), NEWLINE);
    } else {
      EmptySplit();
    }
  }

  lemma EmptySplit()
    ensures Split([]) == [[]]
  {
  }

  /** The complete lines of `data`, and the partial line after them. */
  function Complete(data: Bytes): seq<Bytes> {
    Split(data)[..|Split(data)| - 1]
  }

  function Partial(data: Bytes): Bytes {
    Split(data)[|Split(data)| - 1]
  }

  lemma {:induction false} SplitOfLine(line: Bytes)
    requires NEWLINE !in line
    ensures Split(line) == [line]
  {
    if line != [] {
      var front, b := line[..|line| - 1], line[|line| - 1];
      assert line == front + [b] && b in line;
      SplitOfLine(front);
    }
  }

  lemma SplitOneMore(data: Bytes, b: Byte)
    ensures Complete(data + [b]) == if b == NEWLINE then Complete(data) + [Partial(data)] else Complete(data)
    ensures Partial(data + [b]) == if b == NEWLINE then [] else Partial(data) + [b]
  {
    hide Split;
    SplitSnoc(data, b);
    var parts := Split(data);
    assert parts == parts[..|parts| - 1] + [parts[|parts| - 1]];
  }

  lemma PartialIsLine(data: Bytes)
    ensures Complete(Partial(data)) == [] && Partial(Partial(data)) == Partial(data)
  {
    hide Split;
    SplitJoins(data);
    assert Partial(data) in Split(data);
    SplitOfLine(Partial(data));
  }

  /** Splitting may stop anywhere, even inside a line ending or a multibyte character, and go on
      from the partial line alone. */
  lemma {:induction false} SplitResumes(data: Bytes, chunk: Bytes)
    ensures Complete(data + chunk) == Complete(data) + Complete(Partial(data) + chunk)
    ensures Partial(data + chunk) == Partial(Partial(data) + chunk)
  {
    hide Complete, Partial;
    if chunk == [] {
      PartialIsLine(data);
      assert data + chunk == data && Partial(data) + chunk == Partial(data);
    } else {
      var front, b := chunk[..|chunk| - 1], chunk[|chunk| - 1];
      SplitResumes(data, front);
      SplitOneMore(data + front, b);
      SplitOneMore(Partial(data) + front, b);
      assert chunk == front + [b];
      ConcatAssociates(data, front, [b]);
      ConcatAssociates(Partial(data), front, [b]);
      ConcatAssociates(Complete(data), Complete(Partial(data) + front), [Partial(Partial(data) + front)]);
    }
  }

  /** `part.rstrip(b"\r")` */
  function StripReturns(part: Bytes): Bytes {
    if part != [] && part[|part| - 1] == CARRIAGE_RETURN then StripReturns(part[..|part| - 1]) else part
  }

  function Decoded(decode: Decoder, parts: seq<Bytes>): seq<string> {
    seq(|parts|, i requires 0 <= i < |parts| => decode(StripReturns(parts[i])))
  }

  /** The text of the complete lines of `data`. */
  function Lines(decode: Decoder, data: Bytes): seq<string> {
    Decoded(decode, Complete(data))
  }

  // What a line is, in bytes -------------------------------------------------------

  /** These bytes are a text, any number of carriage returns, and one line feed. */
  ghost predicate IsLine(bytes: Bytes, text: Bytes, padding: Bytes) {
    && bytes == text + padding + [10] && 10 !in text && (forall b | b in padding :: b == 13)
    && (text != [] ==> text[|text| - 1] != 13)
  }

  lemma {:induction false} ReturnsStripped(part: Bytes) returns (padding: Bytes)
    ensures part == StripReturns(part) + padding && forall b | b in padding :: b == 13
    ensures var text := StripReturns(part); text != [] ==> text[|text| - 1] != 13
  {
    padding := [];
    if part != [] && part[|part| - 1] == 13 {
      var front := part[..|part| - 1];
      var fewer := ReturnsStripped(front);
      assert part == front + [13];
      padding := fewer + [13];
    }
  }

  lemma PartIsLine(part: Bytes)
    requires NEWLINE !in part
    ensures exists padding :: IsLine(part + [NEWLINE], StripReturns(part), padding)
  {
    var padding := ReturnsStripped(part);
    assert 10 !in StripReturns(part);
    assert IsLine(part + [NEWLINE], StripReturns(part), padding);
  }

  function Terminated(parts: seq<Bytes>): seq<Bytes> {
    seq(|parts|, i requires 0 <= i < |parts| => parts[i] + [NEWLINE])
  }

  /** The pieces are the complete lines, each with its ending, and the partial line. */
  lemma {:induction false} JoinInPieces(parts: seq<Bytes>)
    requires parts != []
    ensures Pieces(Join(parts), Terminated(parts[..|parts| - 1]) + [parts[|parts| - 1]])
  {
    hide Pieces;
    var n := |parts| - 1;
    if n == 0 {
      NoPieces<Byte>();
      OnePieceMore<Byte>([], [], parts[0]);
      assert Terminated([]) == [] && [] + parts[0] == parts[0] && parts[..0] == [];
      assert [] + [parts[0]] == Terminated(parts[..0]) + [parts[0]];
    } else {
      var front := parts[..n];
      JoinInPieces(front);
      LongerLastPiece(Join(front), Terminated(front[..n - 1]), front[n - 1], [NEWLINE]);
      assert Terminated(front) == Terminated(front[..n - 1]) + [front[n - 1] + [NEWLINE]];
      OnePieceMore(Join(front) + [NEWLINE], Terminated(front), parts[n]);
    }
  }

  lemma LongerLastPiece(all: Bytes, parts: seq<Bytes>, last: Bytes, more: Bytes)
    requires Pieces(all, parts + [last])
    ensures Pieces(all + more, parts + [last + more])
  {
    hide Pieces, CutAt;
    var cuts: seq<nat> := CutsOf(all, parts + [last]);
    FrontPieces(all, parts + [last], cuts);
    var front := all[..cuts[|parts|]];
    assert (parts + [last])[..|parts|] == parts;
    OnePieceMore(front, parts, last + more);
    ConcatAssociates(front, last, more);
  }

  lemma CutsOf(all: Bytes, parts: seq<Bytes>) returns (cuts: seq<nat>)
    requires Pieces(all, parts)
    ensures CutAt(all, parts, cuts)
  {
    cuts :| CutAt(all, parts, cuts);
  }

  /** Exactly what the lines of some bytes are: the bytes are cut after each line feed, what comes
      out is the decoded text of each piece without its carriage returns, and what is left over,
      which has no line feed, is the partial line. */
  lemma LinesAreExact(decode: Decoder, data: Bytes) returns (parts: seq<Bytes>, texts: seq<Bytes>)
    ensures Pieces(data, parts + [Partial(data)]) && 10 !in Partial(data)
    ensures |parts| == |texts| == |Lines(decode, data)|
    ensures forall i | 0 <= i < |parts| ::
              (exists padding :: IsLine(parts[i], texts[i], padding)) && Lines(decode, data)[i] == decode(texts[i])
  {
    hide Split, Join, Pieces, IsLine;
    SplitJoins(data);
    var split := Split(data);
    JoinInPieces(split);
    assert split[|split| - 1] in split;
    parts := Terminated(Complete(data));
    texts := seq(|Complete(data)|, i requires 0 <= i < |Complete(data)| => StripReturns(Complete(data)[i]));
    forall i | 0 <= i < |parts|
      ensures exists padding :: IsLine(parts[i], texts[i], padding)
    {
      var part := Complete(data)[i];
      assert part == split[i] && part in split;
      assert parts[i] == part + [NEWLINE] && texts[i] == StripReturns(part);
      PartIsLine(part);
    }
  }

  // ---------------------------------------------------------------------------
  // Polling
  // ---------------------------------------------------------------------------

  /** What `stat` and `open` say about the path at one poll. `inode` is 0 where the platform does
      not report one. */
  datatype FileView =
    | Missing
    | Unreadable(inode: nat, size: nat)
    | Readable(inode: nat, content: Bytes)

  datatype TailState = TailState(offset: nat, inode: Option<nat>, buffer: Bytes)

  const FRESH_TAIL := TailState(0, None, [])

  function SizeOf(view: FileView): nat
    requires !view.Missing?
  {
    if view.Readable? then |view.content| else view.size
  }

  predicate Rotated(st: TailState, view: FileView)
    requires !view.Missing?
  {
    (st.inode.Some? && view.inode != 0 && view.inode != st.inode.value) || SizeOf(view) < st.offset
  }

  function AfterRotationCheck(st: TailState, view: FileView): TailState
    requires !view.Missing?
  {
    if Rotated(st, view) then TailState(0, Some(view.inode), []) else st.(inode := Some(view.inode))
  }

  function Min(a: nat, b: nat): nat {
    if a <= b then a else b
  }

  function PollStep(decode: Decoder, limit: nat, st: TailState, view: FileView): (TailState, seq<string>) {
    if view.Missing? then (st, [])
    else
      var checked := AfterRotationCheck(st, view);
      if view.Unreadable? then (checked, [])
      else
        var end := Min(checked.offset + limit, |view.content|);
        var data := checked.buffer + view.content[checked.offset..end];
        (checked.(offset := end, buffer := Partial(data)), Lines(decode, data))
  }

  class FileTailer {
    const decode: Decoder
    const limit: nat
    var offset: nat
    var inode: Option<nat>
    var buffer: Bytes

    constructor (decode: Decoder, limit: nat)
      ensures State() == FRESH_TAIL && this.decode == decode && this.limit == limit
    {
      this.decode, this.limit := decode, limit;
      offset, inode, buffer := 0, None, [];
    }

    function State(): TailState
      reads this
    {
      TailState(offset, inode, buffer)
    }

    method HandleRotation(view: FileView)
      requires !view.Missing?
      modifies this
      ensures State() == AfterRotationCheck(old(State()), view)
    {
      var rotatedInode := inode.Some? && view.inode != 0 && view.inode != inode.value;
      var truncated := SizeOf(view) < offset;
      if rotatedInode || truncated {
        offset := 0;
        buffer := [];
      }
      inode := Some(view.inode);
    }

    method Poll(view: FileView) returns (lines: seq<string>)
      modifies this
      ensures (State(), lines) == PollStep(decode, limit, old(State()), view)
    {
      hide Split;
      if view.Missing? {
        return [];
      }
      HandleRotation(view);
      if view.Unreadable? {
        return [];
      }
      var end := Min(offset + limit, |view.content|);
      var chunk := view.content[offset..end];
      offset := end;
      var data := buffer + chunk;
      var parts := Split(data);
      buffer := parts[|parts| - 1];
      parts := parts[..|parts| - 1];
      lines := Decoded(decode, parts);
    }
  }

  // ---------------------------------------------------------------------------
  // Whole runs over one growing file
  // ---------------------------------------------------------------------------

  function Run(decode: Decoder, limit: nat, st: TailState, views: seq<FileView>): (TailState, seq<string>) {
    if views == [] then (st, [])
    else
      var (st1, lines) := Run(decode, limit, st, views[..|views| - 1]);
      var (st2, more) := PollStep(decode, limit, st1, views[|views| - 1]);
      (st2, lines + more)
  }

  /** The polls see one file that is only ever appended to: absent, unreadable or a growing prefix
      of `file`, always with the same inode. */
  ghost predicate Growing(views: seq<FileView>, inode: nat, file: Bytes) {
    && (forall i | 0 <= i < |views| :: views[i].Missing? || views[i].inode == inode)
    && (forall i | 0 <= i < |views| && views[i].Readable? :: views[i].content <= file)
    && (forall i, j | 0 <= i < j < |views| && views[i].Readable? && !views[j].Missing? ::
          |views[i].content| <= SizeOf(views[j]))
  }

  /** What has been consumed of the file: everything before the offset, up to the partial line. */
  ghost predicate Consumed(decode: Decoder, file: Bytes, st: TailState, lines: seq<string>) {
    st.offset <= |file| && lines == Lines(decode, file[..st.offset]) && st.buffer == Partial(file[..st.offset])
  }

  lemma ConsumeChunk(decode: Decoder, file: Bytes, st: TailState, lines: seq<string>, end: nat)
    requires Consumed(decode, file, st, lines) && st.offset <= end <= |file|
    ensures var data := st.buffer + file[st.offset..end];
            lines + Lines(decode, data) == Lines(decode, file[..end]) && Partial(data) == Partial(file[..end])
  {
    hide Complete, Partial;
    SplitResumes(file[..st.offset], file[st.offset..end]);
    assert file[..st.offset] + file[st.offset..end] == file[..end];
  }

  /** No inode that the tailer would take for another file's. */
  ghost predicate InodeFits(st: TailState, inode: nat) {
    inode == 0 || st.inode == None || st.inode == Some(inode)
  }

  /** What is shown is, from there on, what the file holds. */
  ghost predicate AgreesFrom(content: Bytes, file: Bytes, from: nat) {
    from <= |content| <= |file| && content[from..] == file[from..|content|]
  }

  lemma AgreesLater(content: Bytes, file: Bytes, from: nat, later: nat)
    requires AgreesFrom(content, file, from) && from <= later <= |content|
    ensures AgreesFrom(content, file, later)
  {
    assert content[later..] == content[from..][later - from..];
    assert file[later..|content|] == file[from..|content|][later - from..];
  }

  /** The tailer is somewhere in the file, and nothing the file shows next looks like a rotation. */
  ghost predicate Follows(st: TailState, view: FileView, inode: nat, file: Bytes) {
    && InodeFits(st, inode)
    && (view.Missing? || (view.inode == inode && st.offset <= SizeOf(view)))
    && (view.Readable? ==> AgreesFrom(view.content, file, st.offset))
  }

  lemma PollConsumes(
    decode: Decoder, limit: nat, st: TailState, lines: seq<string>, view: FileView, inode: nat, file: Bytes)
    requires Consumed(decode, file, st, lines) && Follows(st, view, inode, file)
    ensures !view.Missing? ==> !Rotated(st, view)
    ensures var (st', more) := PollStep(decode, limit, st, view);
            && Consumed(decode, file, st', lines + more) && InodeFits(st', inode)
            && (st.inode == None || st.inode == Some(inode) ==> st'.inode == None || st'.inode == Some(inode))
            && st.offset <= st'.offset
            && st'.offset == if view.Readable? then Min(st.offset + limit, |view.content|) else st.offset
  {
    hide Complete, Partial, Lines;
    if view.Readable? {
      var end := Min(st.offset + limit, |view.content|);
      SameChunk(view.content, file, st.offset, end);
      ConsumeChunk(decode, file, st, lines, end);
    } else {
      ConcatNothing(lines);
    }
  }

  lemma SameChunk(content: Bytes, file: Bytes, from: nat, end: nat)
    requires AgreesFrom(content, file, from) && from <= end <= |content|
    ensures content[from..end] == file[from..end]
  {
    assert content[from..end] == content[from..][..end - from];
    assert file[from..end] == file[from..|content|][..end - from];
  }

  lemma NothingConsumed(decode: Decoder, file: Bytes)
    ensures Consumed(decode, file, FRESH_TAIL, [])
  {
    EmptySplit();
    assert file[..0] == [];
  }

  /** The polls see one file that is only ever appended to, and that from `from` on is `file`. */
  ghost predicate GrowsOn(views: seq<FileView>, inode: nat, file: Bytes, from: nat) {
    && (forall i | 0 <= i < |views| && !views[i].Missing? :: views[i].inode == inode && from <= SizeOf(views[i]))
    && (forall i | 0 <= i < |views| && views[i].Readable? :: AgreesFrom(views[i].content, file, from))
    && (forall i, j | 0 <= i < j < |views| && views[i].Readable? && !views[j].Missing? ::
          |views[i].content| <= SizeOf(views[j]))
  }

  lemma GrowingGrowsOn(views: seq<FileView>, inode: nat, file: Bytes)
    requires Growing(views, inode, file)
    ensures GrowsOn(views, inode, file, 0)
  {
    forall i | 0 <= i < |views| && views[i].Readable?
      ensures AgreesFrom(views[i].content, file, 0)
    {
      assert views[i].content <= file;
    }
  }

  /** Some poll has read that far. */
  ghost predicate ReadBy(views: seq<FileView>, from: nat, offset: nat) {
    from <= offset
    && (offset == from || exists i | 0 <= i < |views| :: views[i].Readable? && offset <= |views[i].content|)
  }

  lemma NothingRead(from: nat)
    ensures ReadBy([], from, from)
  {
  }

  lemma GrowsOnPrefix(views: seq<FileView>, inode: nat, file: Bytes, from: nat)
    requires views != [] && GrowsOn(views, inode, file, from)
    ensures GrowsOn(views[..|views| - 1], inode, file, from)
  {
  }

  lemma GrowsOnFollows(views: seq<FileView>, st: TailState, inode: nat, file: Bytes, from: nat)
    requires views != [] && GrowsOn(views, inode, file, from) && ReadBy(views[..|views| - 1], from, st.offset)
    requires InodeFits(st, inode)
    ensures Follows(st, views[|views| - 1], inode, file)
  {
    var n := |views| - 1;
    hide AgreesFrom;
    if st.offset > from {
      var i :| 0 <= i < n && views[..n][i].Readable? && st.offset <= |views[..n][i].content|;
      assert views[i].Readable? && st.offset <= |views[i].content|;
    }
    if views[n].Readable? {
      AgreesLater(views[n].content, file, from, st.offset);
    }
  }

  lemma ReadFurther(views: seq<FileView>, from: nat, offset: nat, limit: nat)
    requires views != [] && ReadBy(views[..|views| - 1], from, offset)
    ensures ReadBy(views, from, offset)
    ensures var view := views[|views| - 1];
            view.Readable? && offset <= |view.content| ==> ReadBy(views, from, Min(offset + limit, |view.content|))
  {
    var n := |views| - 1;
    if offset > from {
      var i :| 0 <= i < n && views[..n][i].Readable? && offset <= |views[..n][i].content|;
      assert views[i].Readable? && offset <= |views[i].content|;
    }
    assert views[n].Readable? ==> Min(offset + limit, |views[n].content|) <= |views[n].content|;
  }

  /** From anywhere in a file that is then only appended to: no rotation is reported, what has come
      out in the end is exactly the decoded complete lines of what lies before the offset, and the
      buffer is the partial line that follows. */
  lemma {:induction false} RunConsumes(
    decode: Decoder, limit: nat, st: TailState, lines: seq<string>, views: seq<FileView>, inode: nat, file: Bytes)
    requires Consumed(decode, file, st, lines) && InodeFits(st, inode) && GrowsOn(views, inode, file, st.offset)
    ensures var (st', more) := Run(decode, limit, st, views);
            && Consumed(decode, file, st', lines + more) && InodeFits(st', inode)
            && (st.inode == None || st.inode == Some(inode) ==> st'.inode == None || st'.inode == Some(inode))
            && ReadBy(views, st.offset, st'.offset)
    ensures forall j | 0 <= j < |views| && !views[j].Missing? ::
            !Rotated(Run(decode, limit, st, views[..j]).0, views[j])
  {
    hide PollStep, Consumed, Rotated, Follows, GrowsOn, ReadBy, InodeFits;
    if views == [] {
      ConcatNothing(lines);
      NothingRead(st.offset);
    } else {
      var n := |views| - 1;
      var front, view := views[..n], views[n];
      GrowsOnPrefix(views, inode, file, st.offset);
      RunConsumes(decode, limit, st, lines, front, inode, file);
      var (mid, some) := Run(decode, limit, st, front);
      GrowsOnFollows(views, mid, inode, file, st.offset);
      PollConsumes(decode, limit, mid, lines + some, view, inode, file);
      ReadsWithin(mid, view, inode, file);
      ReadFurther(views, st.offset, mid.offset, limit);
      ConcatAssociates(lines, some, PollStep(decode, limit, mid, view).1);
      forall j | 0 <= j < |views| && !views[j].Missing?
        ensures !Rotated(Run(decode, limit, st, views[..j]).0, views[j])
      {
        assert j < n ==> front[..j] == views[..j] && front[j] == views[j];
      }
    }
  }

  lemma ReadsWithin(st: TailState, view: FileView, inode: nat, file: Bytes)
    requires Follows(st, view, inode, file)
    ensures view.Readable? ==> st.offset <= |view.content|
  {
  }

  /** No poll of a growing file reports a rotation, the concatenated outputs are exactly the
      decoded complete lines of what lies before the offset, in order, none lost or repeated, and
      the buffer is the partial line that follows. */
  lemma TailerIsExact(decode: Decoder, limit: nat, views: seq<FileView>, inode: nat, file: Bytes)
    requires Growing(views, inode, file)
    ensures var (st, lines) := Run(decode, limit, FRESH_TAIL, views);
            && Consumed(decode, file, st, lines)
            && (st.inode == None || st.inode == Some(inode))
            && ReadBy(views, 0, st.offset)
    ensures forall j | 0 <= j < |views| && !views[j].Missing? ::
            !Rotated(Run(decode, limit, FRESH_TAIL, views[..j]).0, views[j])
  {
    hide Run, Consumed, Growing, GrowsOn, ReadBy, Rotated;
    NothingConsumed(decode, file);
    GrowingGrowsOn(views, inode, file);
    RunConsumes(decode, limit, FRESH_TAIL, [], views, inode, file);
    ConcatNothing(Run(decode, limit, FRESH_TAIL, views).1);
  }

  // ---------------------------------------------------------------------------
  // A file that has stopped growing
  // ---------------------------------------------------------------------------

  lemma {:induction false} RunAppend(
    decode: Decoder, limit: nat, st: TailState, first: seq<FileView>, second: seq<FileView>)
    ensures var (mid, lines) := Run(decode, limit, st, first);
            var (end, more) := Run(decode, limit, mid, second);
            Run(decode, limit, st, first + second) == (end, lines + more)
  {
    hide PollStep;
    if second == [] {
      ConcatNothing(first);
      ConcatNothing(Run(decode, limit, st, first).1);
    } else {
      var front, last := second[..|second| - 1], second[|second| - 1];
      RunAppend(decode, limit, st, first, front);
      var all := first + second;
      assert all[..|all| - 1] == first + front && all[|all| - 1] == last;
      var (mid, lines) := Run(decode, limit, st, first);
      var (late, more) := Run(decode, limit, mid, front);
      ConcatAssociates(lines, more, PollStep(decode, limit, late, last).1);
    }
  }

  /** The file shows the same content at each of some polls. */
  function Still(polls: nat, inode: nat, file: Bytes): seq<FileView> {
    seq(polls, _ => Readable(inode, file))
  }

  /** How much that many polls can read. */
  function ReadableBytes(polls: nat, limit: nat): nat {
    polls * limit
  }

  lemma OneMorePoll(start: nat, polls: nat, limit: nat, size: nat)
    ensures Min(Min(start + ReadableBytes(polls, limit), size) + limit, size)
         == Min(start + ReadableBytes(polls + 1, limit), size)
  {
    assert (polls + 1) * limit == polls * limit + limit;
  }

  lemma StillGrowsOn(polls: nat, inode: nat, file: Bytes, from: nat)
    requires from <= |file|
    ensures GrowsOn(Still(polls, inode, file), inode, file, from)
  {
    assert file[..|file|] == file;
  }

  lemma {:induction false} StillOffset(
    decode: Decoder, limit: nat, st: TailState, lines: seq<string>, polls: nat, inode: nat, file: Bytes)
    requires Consumed(decode, file, st, lines) && InodeFits(st, inode)
    ensures Run(decode, limit, st, Still(polls, inode, file)).0.offset
         == Min(st.offset + ReadableBytes(polls, limit), |file|)
  {
    hide PollStep, Consumed, Follows, GrowsOn, ReadBy, ReadableBytes, InodeFits, Still, Rotated, Min;
    ConsumedWithin(decode, file, st, lines);
    if polls == 0 {
      NoStillPolls(limit, inode, file);
      MinOfWithin(st.offset, |file|);
    } else {
      var front := Still(polls - 1, inode, file);
      StillSnoc(polls - 1, inode, file);
      StillOffset(decode, limit, st, lines, polls - 1, inode, file);
      StillGrowsOn(polls - 1, inode, file, st.offset);
      RunConsumes(decode, limit, st, lines, front, inode, file);
      var (mid, more) := Run(decode, limit, st, front);
      ConsumedWithin(decode, file, mid, lines + more);
      StillFollows(mid, inode, file);
      PollConsumes(decode, limit, mid, lines + more, Readable(inode, file), inode, file);
      OneMorePoll(st.offset, polls - 1, limit, |file|);
    }
  }

  lemma ConsumedWithin(decode: Decoder, file: Bytes, st: TailState, lines: seq<string>)
    requires Consumed(decode, file, st, lines)
    ensures st.offset <= |file|
  {
  }

  lemma MinOfWithin(a: nat, b: nat)
    requires a <= b
    ensures Min(a, b) == a
  {
  }

  lemma NoStillPolls(limit: nat, inode: nat, file: Bytes)
    ensures ReadableBytes(0, limit) == 0 && Still(0, inode, file) == []
  {
  }

  lemma StillSnoc(polls: nat, inode: nat, file: Bytes)
    ensures var views := Still(polls + 1, inode, file);
            |views| == polls + 1 && views[..polls] == Still(polls, inode, file) && views[polls] == Readable(inode, file)
  {
  }

  lemma StillFollows(st: TailState, inode: nat, file: Bytes)
    requires st.offset <= |file| && InodeFits(st, inode)
    ensures Follows(st, Readable(inode, file), inode, file)
  {
    assert file[..|file|] == file;
  }

  /** A file that has stopped growing, whatever it showed before (growing, missing, unreadable):
      every further poll gets one chunk further, and so it is read to its end as soon as the chunks
      cover what was left. */
  lemma StaticFileIsReadFully(
    decode: Decoder, limit: nat, before: seq<FileView>, still: nat, inode: nat, file: Bytes)
    requires Growing(before, inode, file)
    ensures var start := Run(decode, limit, FRESH_TAIL, before).0.offset;
            var (st, lines) := Run(decode, limit, FRESH_TAIL, before + Still(still, inode, file));
            && st.offset == Min(start + ReadableBytes(still, limit), |file|)
            && (still * limit >= |file| - start ==>
                  st.offset == |file| && lines == Lines(decode, file) && st.buffer == Partial(file))
  {
    hide Run, Lines, Partial, InodeFits, Growing, Still;
    TailerIsExact(decode, limit, before, inode, file);
    var (mid, lines) := Run(decode, limit, FRESH_TAIL, before);
    Fits(mid, inode);
    RunAppend(decode, limit, FRESH_TAIL, before, Still(still, inode, file));
    StillOffset(decode, limit, mid, lines, still, inode, file);
    StillGrowsOn(still, inode, file, mid.offset);
    RunConsumes(decode, limit, mid, lines, Still(still, inode, file), inode, file);
    assert file[..|file|] == file;
  }

  lemma Fits(st: TailState, inode: nat)
    requires st.inode == None || st.inode == Some(inode)
    ensures InodeFits(st, inode)
  {
  }

  // ---------------------------------------------------------------------------
  // Rotation
  // ---------------------------------------------------------------------------

  /** From a poll on that shows another inode than the last, or fewer bytes than have been read,
      tailer and output are those of a fresh tailer. */
  lemma RotationStartsOver(decode: Decoder, limit: nat, st: TailState, view: FileView, after: seq<FileView>)
    requires !view.Missing?
    requires (st.inode != None && view.inode != 0 && st.inode != Some(view.inode)) || SizeOf(view) < st.offset
    ensures Run(decode, limit, st, [view] + after) == Run(decode, limit, FRESH_TAIL, [view] + after)
  {
    hide Lines, Partial;
    RunAppend(decode, limit, st, [view], after);
    RunAppend(decode, limit, FRESH_TAIL, [view], after);
    assert [view][..0] == [];
  }

  /** A file under the tailed path, and what the polls see of it until it is replaced. */
  datatype Generation = Generation(inode: nat, content: Bytes, views: seq<FileView>)

  /** How far, and to which state, a tailer of its own gets with one generation. */
  function Tailed(decode: Decoder, limit: nat, g: Generation): TailState {
    Run(decode, limit, FRESH_TAIL, g.views).0
  }

  function AllViews(gens: seq<Generation>): seq<FileView> {
    if gens == [] then [] else AllViews(gens[..|gens| - 1]) + gens[|gens| - 1].views
  }

  /** The first look at the next file gives it away: it has another inode than the file before, which
      has been seen, and the platform reports inodes; or it is shorter than what had been read. */
  ghost predicate GivenAway(decode: Decoder, limit: nat, g: Generation, view: FileView) {
    !view.Missing?
    && ((view.inode != 0 && view.inode != g.inode && exists i | 0 <= i < |g.views| :: !g.views[i].Missing?)
        || SizeOf(view) < Tailed(decode, limit, g).offset)
  }

  /** Each file only grows while it is there, and is then replaced by one that gives itself away. */
  ghost predicate Replaced(decode: Decoder, limit: nat, gens: seq<Generation>) {
    && (forall i | 0 <= i < |gens| :: Growing(gens[i].views, gens[i].inode, gens[i].content))
    && (forall i | 0 < i < |gens| :: gens[i].views != [] && GivenAway(decode, limit, gens[i - 1], gens[i].views[0]))
  }

  lemma {:induction false} InodeOnceSeen(decode: Decoder, limit: nat, g: Generation)
    requires Growing(g.views, g.inode, g.content)
    ensures Tailed(decode, limit, g).inode
         == if exists i | 0 <= i < |g.views| :: !g.views[i].Missing? then Some(g.inode) else None
    decreases |g.views|
  {
    if g.views != [] {
      var n := |g.views| - 1;
      InodeOnceSeen(decode, limit, g.(views := g.views[..n]));
      hide Lines, Partial;
      if i :| 0 <= i < |g.views| && !g.views[i].Missing? {
        assert i < n ==> g.views[..n][i] == g.views[i];
      }
    }
  }

  /** The complete lines of each file up to where it had been read when it was replaced. */
  ghost function LinesInTurn(decode: Decoder, limit: nat, gens: seq<Generation>): seq<string>
    requires forall i | 0 <= i < |gens| :: Tailed(decode, limit, gens[i]).offset <= |gens[i].content|
  {
    if gens == [] then []
    else
      var front, last := gens[..|gens| - 1], gens[|gens| - 1];
      LinesInTurn(decode, limit, front) + Lines(decode, last.content[..Tailed(decode, limit, last).offset])
  }

  /** Over any number of detected replacements: the lines of each file come out in turn, in order,
      none lost or repeated up to where it was read, and nothing of one file leaks into the next. */
  lemma {:induction false} ReplacedFilesAreReadInTurn(decode: Decoder, limit: nat, gens: seq<Generation>)
    requires gens != [] && Replaced(decode, limit, gens)
    ensures forall i | 0 <= i < |gens| :: Tailed(decode, limit, gens[i]).offset <= |gens[i].content|
    ensures Run(decode, limit, FRESH_TAIL, AllViews(gens))
         == (Tailed(decode, limit, gens[|gens| - 1]), LinesInTurn(decode, limit, gens))
  {
    hide Run, Lines, Growing, Rotated;
    forall i | 0 <= i < |gens|
      ensures Tailed(decode, limit, gens[i]).offset <= |gens[i].content|
    {
      TailerIsExact(decode, limit, gens[i].views, gens[i].inode, gens[i].content);
    }
    var n := |gens| - 1;
    var front, last := gens[..n], gens[n];
    TailerIsExact(decode, limit, last.views, last.inode, last.content);
    if n == 0 {
      assert front == [];
      ConcatNothing(last.views);
      ConcatNothing(Run(decode, limit, FRESH_TAIL, last.views).1);
    } else {
      ReplacedFilesAreReadInTurn(decode, limit, front);
      assert front[n - 1] == gens[n - 1];
      InodeOnceSeen(decode, limit, gens[n - 1]);
      RunAppend(decode, limit, FRESH_TAIL, AllViews(front), last.views);
      var first := last.views[0];
      assert last.views == [first] + last.views[1..];
      RotationStartsOver(decode, limit, Tailed(decode, limit, front[n - 1]), first, last.views[1..]);
    }
  }

  /** The documented blind spot. A replacement that keeps or hides its inode and is already as long
      as the old read position goes unseen, at every later poll; what comes out is the lines of a
      file that never was, the old one up to that position and the new one from there on. */
  lemma UnseenReplacement(
    decode: Decoder, limit: nat, st: TailState, lines: seq<string>, previous: Bytes, current: Bytes, inode: nat,
    views: seq<FileView>)
    requires Consumed(decode, previous, st, lines) && InodeFits(st, inode) && st.offset <= |current|
    requires Growing(views, inode, current)
    requires forall i | 0 <= i < |views| && !views[i].Missing? :: st.offset <= SizeOf(views[i])
    ensures var splice := previous[..st.offset] + current[st.offset..];
            var (st', more) := Run(decode, limit, st, views);
            Consumed(decode, splice, st', lines + more)
    ensures forall j | 0 <= j < |views| && !views[j].Missing? ::
            !Rotated(Run(decode, limit, st, views[..j]).0, views[j])
  {
    hide Lines, Partial, Run, Rotated, InodeFits;
    var splice := previous[..st.offset] + current[st.offset..];
    assert splice[..st.offset] == previous[..st.offset];
    assert GrowsOn(views, inode, splice, st.offset) by {
      SplicedGrowsOn(views, inode, previous, current, st.offset);
    }
    RunConsumes(decode, limit, st, lines, views, inode, splice);
  }

  lemma SplicedGrowsOn(views: seq<FileView>, inode: nat, previous: Bytes, current: Bytes, from: nat)
    requires from <= |previous| && from <= |current| && Growing(views, inode, current)
    requires forall i | 0 <= i < |views| && !views[i].Missing? :: from <= SizeOf(views[i])
    ensures GrowsOn(views, inode, previous[..from] + current[from..], from)
  {
    var splice := previous[..from] + current[from..];
    forall i | 0 <= i < |views| && views[i].Readable?
      ensures AgreesFrom(views[i].content, splice, from)
    {
      SplicedAgrees(views[i].content, previous, current, from);
    }
  }

  lemma SplicedAgrees(content: Bytes, previous: Bytes, current: Bytes, from: nat)
    requires from <= |previous| && from <= |content| && content <= current
    ensures AgreesFrom(content, previous[..from] + current[from..], from)
  {
    var splice := previous[..from] + current[from..];
    assert splice[from..|content|] == current[from..|content|];
    assert content[from..] == current[from..|content|];
  }
}
