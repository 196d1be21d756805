/** The play-time file as a whole: reading it into a map and changing one entry in place
    (src/GameList.cpp:1017-1168). */
module PlayTimeFile {
  import opened Basics
  import opened PlayTimeText

  const BUFFER := 255   // what fgets reads at most into a buffer of 256

  type TimeMap = map<string, Played>

  // ---- fgets ----

  /** The length of the next chunk: up to and with the newline, the buffer's size, or the
      rest of the file. */
  function ChunkFrom(f: string, k: nat): (n: nat)
    requires k <= |f| && k <= BUFFER
    ensures k <= n <= |f| && n <= BUFFER
    ensures k < |f| && k < BUFFER ==> n > k
    decreases BUFFER - k
  {
    if k == |f| || k == BUFFER then k
    else if f[k] == '\n' then k + 1
    else ChunkFrom(f, k + 1)
  }

  function Chunk(f: string): (n: nat)
    requires f != ""
    ensures 0 < n <= |f| && n <= BUFFER
  {
    ChunkFrom(f, 0)
  }

  /** A chunk has no newline before its end, and ends where it does for one of three reasons. */
  lemma {:induction false} ChunkFromStops(f: string, k: nat)
    requires k <= |f| && k <= BUFFER
    ensures var n := ChunkFrom(f, k);
            && (forall i :: k <= i < n - 1 ==> f[i] != '\n')
            && (n == |f| || n == BUFFER || (n > k && f[n - 1] == '\n'))
    decreases BUFFER - k
  {
    if k < |f| && k < BUFFER && f[k] != '\n' {
      ChunkFromStops(f, k + 1);
    }
  }

  lemma ChunkStops(f: string)
    requires f != ""
    ensures forall i :: 0 <= i < Chunk(f) - 1 ==> f[i] != '\n'
    ensures Chunk(f) == |f| || Chunk(f) == BUFFER || f[Chunk(f) - 1] == '\n'
  {
    ChunkFromStops(f, 0);
  }

  /** Those facts determine the chunk. */
  lemma ChunkIs(f: string, n: nat)
    requires 0 < n <= |f| && n <= BUFFER
    requires forall i :: 0 <= i < n - 1 ==> f[i] != '\n'
    requires n == |f| || n == BUFFER || f[n - 1] == '\n'
    ensures Chunk(f) == n
  {
    ChunkStops(f);
    var m := Chunk(f);
    if m < n {
      assert false;
    } else if n < m {
      assert false;
    }
  }

  function Lines(f: string): seq<string>
    decreases |f|
  {
    if f == "" then [] else [f[..Chunk(f)]] + Lines(f[Chunk(f)..])
  }

  // ---- The map a file stands for ----

  predicate Names(line: string, serial: string)
  {
    ParseLine(line).Some? && ParseLine(line).value.serial == serial
  }

  /** The first line that names a serial counts. */
  function MapOf(lines: seq<string>): TimeMap
  {
    if lines == [] then map[]
    else
      var rest := MapOf(lines[1..]);
      match ParseLine(lines[0])
      case None => rest
      case Some(r) => rest[r.serial := r.played]
  }

  /** The first line that names it, or the number of lines. */
  function FirstNaming(lines: seq<string>, serial: string): (k: nat)
    ensures k <= |lines|
    ensures forall i :: 0 <= i < k ==> !Names(lines[i], serial)
    ensures k < |lines| ==> Names(lines[k], serial)
  {
    if lines == [] || Names(lines[0], serial) then 0 else 1 + FirstNaming(lines[1..], serial)
  }

  lemma {:induction false} MapOfFirst(lines: seq<string>, serial: string)
    ensures serial in MapOf(lines) <==> FirstNaming(lines, serial) < |lines|
    ensures var k := FirstNaming(lines, serial);
            k < |lines| ==> MapOf(lines)[serial] == ParseLine(lines[k]).value.played
  {
    hide ParseLine;
    if lines != [] {
      MapOfFirst(lines[1..], serial);
    }
  }

  /** Replacing the first line that names a serial changes the map at that serial only,
      even when later lines name it again. */
  lemma {:induction false} MapOfReplaced(lines: seq<string>, k: nat, line: string, r: Record)
    requires k < |lines| && FirstNaming(lines, r.serial) == k && ParseLine(line) == Some(r)
    ensures MapOf(lines[k := line]) == MapOf(lines)[r.serial := r.played]
  {
    hide ParseLine;
    if k == 0 {
      assert lines[0 := line][1..] == lines[1..];
    } else {
      assert lines[k := line][1..] == lines[1..][k - 1 := line];
      assert FirstNaming(lines[1..], r.serial) == k - 1;
      MapOfReplaced(lines[1..], k - 1, line, r);
    }
  }

  lemma {:induction false} MapOfAppended(lines: seq<string>, more: seq<string>)
    ensures MapOf(lines + more) == MapOf(more) + MapOf(lines)
  {
    hide ParseLine;
    if lines == [] {
      assert lines + more == more;
    } else {
      assert (lines + more)[1..] == lines[1..] + more;
      MapOfAppended(lines[1..], more);
    }
  }

  lemma {:induction false} MapOfUnreadable(lines: seq<string>)
    requires AllUnreadable(lines)
    ensures MapOf(lines) == map[]
  {
    hide ParseLine;
    if lines != [] {
      MapOfUnreadable(lines[1..]);
    }
  }

  // ---- Overwriting and appending, on text ----

  /** Where line k begins. */
  function Start(f: string, k: nat): (p: nat)
    requires k <= |Lines(f)|
    ensures p <= |f|
    decreases |f|
  {
    if k == 0 then 0 else Chunk(f) + Start(f[Chunk(f)..], k - 1)
  }

  /** The text written at p over what is there. */
  function Overwritten(f: string, p: nat, text: string): string
    requires p <= |f|
  {
    f[..p] + text + if p + |text| <= |f| then f[p + |text|..] else ""
  }

  /** A printed line: a newline at its end and nowhere else. */
  predicate OneLine(text: string)
  {
    |text| == LINE_LENGTH && text[74] == '\n' && '\n' !in text[..74]
  }

  lemma ChunkOfLine(text: string, rest: string)
    requires OneLine(text)
    ensures Chunk(text + rest) == 75 && (text + rest)[75..] == rest && (text + rest)[..75] == text
    ensures Lines(text + rest) == [text] + Lines(rest)
  {
    assert forall i :: 0 <= i < 74 ==> text[..74][i] == text[i];
    ChunkIs(text + rest, 75);
  }

  /** Files with the same first line, which is not the last of the first one. */
  lemma SharedLine(f: string, h: string)
    requires f != "" && Chunk(f) < |f| && Chunk(f) <= |h| && h[..Chunk(f)] == f[..Chunk(f)]
    ensures Lines(f) == [f[..Chunk(f)]] + Lines(f[Chunk(f)..])
    ensures h != "" && Chunk(h) == Chunk(f) && Lines(h) == [f[..Chunk(f)]] + Lines(h[Chunk(f)..])
  {
    var n := Chunk(f);
    ChunkStops(f);
    assert forall i :: 0 <= i < n ==> h[i] == h[..n][i] && f[i] == f[..n][i];
    ChunkIs(h, n);
  }

  lemma OverwrittenLater(f: string, n: nat, p: nat, text: string)
    requires n + p <= |f|
    ensures var h, g := Overwritten(f, n + p, text), Overwritten(f[n..], p, text);
            && |h| >= n && h[..n] == f[..n] && h[n..] == g
  {
    var h, g := Overwritten(f, n + p, text), Overwritten(f[n..], p, text);
    assert f[..n + p] == f[..n] + f[n..][..p];
    if n + p + |text| <= |f| {
      assert f[n + p + |text|..] == f[n..][p + |text|..];
    }
    assert h == f[..n] + g;
  }

  lemma Shifted(first: string, rest: seq<string>, k: nat, text: string)
    requires 0 < k <= |rest| + 1
    ensures k <= |rest| ==>
      ([first] + rest)[k] == rest[k - 1] && ([first] + rest)[k := text] == [first] + rest[k - 1 := text]
    ensures ([first] + rest)[k..] == rest[k - 1..]
  {
  }

  lemma Unfold(f: string)
    requires f != ""
    ensures Lines(f) == [f[..Chunk(f)]] + Lines(f[Chunk(f)..])
  {
  }

  lemma SomeLines(f: string)
    ensures Lines(f) == [] <==> f == ""
  {
  }

  lemma StartFirst(f: string)
    ensures Start(f, 0) == 0
  {
  }

  lemma StartNext(f: string, k: nat)
    requires f != "" && 0 < k <= |Lines(f)|
    ensures k - 1 <= |Lines(f[Chunk(f)..])| && Start(f, k) == Chunk(f) + Start(f[Chunk(f)..], k - 1)
  {
    hide Chunk;
  }

  lemma OverwrittenFirst(f: string, text: string)
    requires |text| <= |f|
    ensures Overwritten(f, 0, text) == text + f[|text|..]
  {
  }

  lemma OneLineFacts(text: string)
    requires OneLine(text)
    ensures |text| == LINE_LENGTH && Finished(text)
  {
  }

  /** Overwriting line k, of the same length, changes that line only. */
  lemma {:induction false} LinesOverwritten(f: string, k: nat, text: string)
    requires k < |Lines(f)| && |Lines(f)[k]| == LINE_LENGTH && OneLine(text)
    ensures Lines(Overwritten(f, Start(f, k), text)) == Lines(f)[k := text]
    decreases k
  {
    hide OneLine, Overwritten, Lines, Chunk, Start;
    SomeLines(f);
    Unfold(f);
    StartFirst(f);
    OneLineFacts(text);
    var n, g := Chunk(f), f[Chunk(f)..];
    if k == 0 {
      OverwrittenFirst(f, text);
      ChunkOfLine(text, g);
    } else {
      Shifted(f[..n], Lines(g), k, text);
      var p := Start(g, k - 1);
      StartNext(f, k);
      LinesOverwritten(g, k - 1, text);
      OverwrittenLater(f, n, p, text);
      SomeLines(g);
      SharedLine(f, Overwritten(f, n + p, text));
    }
  }

  /** A line that ends where a following one may begin: with a newline or at the buffer's end. */
  predicate Finished(line: string) { |line| == BUFFER || (line != "" && line[|line| - 1] == '\n') }

  /** A file new text can be appended to. */
  predicate Complete(f: string)
  {
    Lines(f) == [] || Finished(Lines(f)[|Lines(f)| - 1])
  }

  lemma CompleteEmpty()
    ensures Complete("")
  {
  }

  lemma CompleteTail(f: string)
    requires f != "" && Chunk(f) < |f|
    ensures Complete(f) == Complete(f[Chunk(f)..])
  {
    hide Finished, Chunk;
    assert Lines(f) == [f[..Chunk(f)]] + Lines(f[Chunk(f)..]) && Lines(f[Chunk(f)..]) != [];
  }

  lemma CompleteLast(f: string)
    requires f != "" && Chunk(f) == |f|
    ensures Complete(f) == Finished(f)
  {
    assert f[..|f|] == f && f[|f|..] == "";
    assert Lines(f) == [f];
  }

  lemma {:induction false} LinesAppended(f: string, text: string)
    requires Complete(f) && OneLine(text)
    ensures Lines(f + text) == Lines(f) + [text]
    decreases |f|
  {
    hide OneLine, Complete, Chunk;
    if f == "" {
      assert f + text == text + "";
      ChunkOfLine(text, "");
    } else if Chunk(f) < |f| {
      var n := Chunk(f);
      assert (f + text)[n..] == f[n..] + text && (f + text)[..n] == f[..n];
      SharedLine(f, f + text);
      CompleteTail(f);
      LinesAppended(f[n..], text);
    } else {
      CompleteLast(f);
      ChunkStops(f);
      ChunkIs(f + text, |f|);
      assert (f + text)[|f|..] == text + "" && (f + text)[..|f|] == f == f[..|f|] && f[|f|..] == "";
      ChunkOfLine(text, "");
      assert Lines(f) == [f] + Lines("");
    }
  }

  lemma Unreadable(line: string)
    requires NUL !in line && |line| != LINE_LENGTH
    ensures ParseLine(line) == None
  {
    StrLenIs(line);
  }

  /** Text appended behind an unfinished last line is glued to it: neither can be read. */
  lemma {:induction false} LinesGlued(f: string, text: string) returns (k: nat)
    requires !Complete(f) && OneLine(text) && NUL !in f && NUL !in text
    ensures k < |Lines(f)| && k <= |Lines(f + text)| && Lines(f + text)[..k] == Lines(f)[..k]
    ensures AllUnreadable(Lines(f + text)[k..])
    decreases |f|
  {
    hide OneLine, ParseLine, AllUnreadable, Lines, Chunk, Complete;
    CompleteEmpty();
    var n, h := Chunk(f), f + text;
    if n < |f| {
      CompleteTail(f);
      var g := f[n..];
      assert h[n..] == g + text && h[..n] == f[..n];
      SharedLine(f, h);
      var j := LinesGlued(g, text);
      k := j + 1;
      GluedShift([f[..n]], Lines(g + text), Lines(g), j);
    } else {
      k := 0;
      CompleteLast(f);
      ChunkStops(f);
      GluedTail(f, text);
      assert Lines(h)[0..] == Lines(h);
      SomeLines(f);
    }
  }

  lemma GluedShift(first: seq<string>, now: seq<string>, was: seq<string>, j: nat)
    requires |first| == 1 && j <= |now| && j <= |was| && now[..j] == was[..j]
    ensures (first + now)[..j + 1] == (first + was)[..j + 1]
    ensures (first + now)[j + 1..] == now[j..]
  {
    assert (first + now)[..j + 1] == first + now[..j];
    assert (first + was)[..j + 1] == first + was[..j];
  }

  predicate AllUnreadable(lines: seq<string>)
  {
    forall i :: 0 <= i < |lines| ==> ParseLine(lines[i]) == None
  }

  lemma GluedTail(f: string, text: string)
    requires 0 < |f| < BUFFER && '\n' !in f && OneLine(text) && NUL !in f && NUL !in text
    ensures AllUnreadable(Lines(f + text))
  {
    hide ParseLine;
    var h := f + text;
    assert forall i :: 0 <= i < 74 ==> text[..74][i] == text[i];
    if |h| <= BUFFER {
      ChunkIs(h, |h|);
      assert h[|h|..] == "" && h[..|h|] == h;
      Unreadable(h);
    } else {
      ChunkIs(h, BUFFER);
      Unreadable(h[..BUFFER]);
      var rest := h[BUFFER..];
      assert forall i :: 0 <= i < |rest| ==> rest[i] == text[i + BUFFER - |f|];
      ChunkIs(rest, |rest|);
      assert rest[|rest|..] == "" && rest[..|rest|] == rest;
      Unreadable(rest);
      assert Lines(rest) == [rest];
    }
  }

  // ---- What one update does to the file ----

  /** The entry an update leaves for a serial that was there, and for one that was not. */
  function Changed(was: Played, last: int, add: int): Played
  {
    if last != 0 then Played(last, was.total + add) else Played(0, 0)
  }

  /** The file after an update. */
  function Updated(f: string, serial: string, last: int, add: int): string
  {
    var lines := Lines(f);
    var k := FirstNaming(lines, serial);
    if k < |lines| then
      Overwritten(f, Start(f, k), MakeLine(serial, Changed(ParseLine(lines[k]).value.played, last, add)))
    else if last != 0 then f + MakeLine(serial, Played(last, add))
    else f
  }

  /** A serial that keeps to its field and its line. */
  predicate Plain(serial: string) { Storable(serial) && '\n' !in serial }

  lemma MadeLine(serial: string, p: Played)
    requires Plain(serial) && IsTime(p.last) && IsTime(p.total)
    ensures OneLine(MakeLine(serial, p)) && NUL !in MakeLine(serial, p)
    ensures p.last >= 0 && p.total >= 0 ==> ParseLine(MakeLine(serial, p)) == Some(Record(serial, p))
  {
    hide MakeLine, ParseLine;
    LineParts(serial, p);
    LineChars(serial, p, '\n');
    LineChars(serial, p, NUL);
    ParseMakeLine(serial, p);
  }

  lemma {:induction false} LinesHaveNoNul(f: string, k: nat)
    requires NUL !in f && k < |Lines(f)|
    ensures NUL !in Lines(f)[k]
    decreases |f|
  {
    if k > 0 {
      LinesHaveNoNul(f[Chunk(f)..], k - 1);
    }
  }

  lemma ReadableLength(line: string)
    requires NUL !in line && ParseLine(line).Some?
    ensures |line| == LINE_LENGTH
  {
    StrLenIs(line);
  }

  /** A serial that is in the file: the map changes there and nowhere else, whatever else
      the file holds, duplicates, damaged lines and an unfinished last line included. */
  lemma UpdateChangesOne(f: string, serial: string, last: int, add: int)
    requires NUL !in f && Plain(serial) && serial in MapOf(Lines(f))
    requires var p := Changed(MapOf(Lines(f))[serial], last, add); 0 <= p.last < TWO_63 && 0 <= p.total < TWO_63
    ensures MapOf(Lines(Updated(f, serial, last, add)))
            == MapOf(Lines(f))[serial := Changed(MapOf(Lines(f))[serial], last, add)]
  {
    hide MakeLine, ParseLine, Overwritten, Start, OneLine, Lines, MapOf;
    var lines := Lines(f);
    var k := FirstNaming(lines, serial);
    MapOfFirst(lines, serial);
    var p := Changed(MapOf(lines)[serial], last, add);
    MadeLine(serial, p);
    LinesHaveNoNul(f, k);
    ReadableLength(lines[k]);
    LinesOverwritten(f, k, MakeLine(serial, p));
    MapOfReplaced(lines, k, MakeLine(serial, p), Record(serial, p));
  }

  /** A serial that is not in the file: clearing it changes nothing; otherwise its entry is
      added exactly if the file's last line was finished. */
  lemma UpdateAddsOne(f: string, serial: string, last: int, add: int)
    requires NUL !in f && Plain(serial) && serial !in MapOf(Lines(f))
    requires 0 <= last < TWO_63 && 0 <= add < TWO_63
    ensures last == 0 ==> Updated(f, serial, last, add) == f
    ensures last != 0 ==>
              (MapOf(Lines(Updated(f, serial, last, add))) == MapOf(Lines(f))[serial := Played(last, add)]
               <==> Complete(f))
  {
    hide MakeLine, ParseLine, OneLine, Lines, MapOf, Complete;
    var lines, p := Lines(f), Played(last, add);
    MapOfFirst(lines, serial);
    var text := MakeLine(serial, p);
    MadeLine(serial, p);
    if last != 0 {
      if Complete(f) {
        LinesAppended(f, text);
        MapOfAppended(lines, [text]);
        MapOfOne(text, Record(serial, p));
      } else {
        var k := LinesGlued(f, text);
        NotNamed(Lines(f + text), lines, k, serial);
      }
    }
  }

  /** A file whose only line has lost its newline, so that it is not read. */
  const CUT_LINE: string := "SLUS-20312" + Spaces(22) + " " + "3600" + Spaces(16) + " " + "1000000000" + Spaces(10)

  /** Adding a session of another serial to it: nothing of the file can be read afterwards. */
  lemma CutLineLosesEntry()
    ensures |CUT_LINE| == LINE_LENGTH - 1 && NUL !in CUT_LINE && !Complete(CUT_LINE)
    ensures MapOf(Lines(Updated(CUT_LINE, "SCES-50000", 1_100_000_000, 60))) == map[]
  {
    hide MakeLine, Lines, MapOf, Complete;
    var f, serial, p := CUT_LINE, "SCES-50000", Played(1_100_000_000, 60);
    CutLineIs();
    assert Plain(serial);
    MadeLine(serial, p);
    GluedTail(f, MakeLine(serial, p));
    NothingReadable(Lines(f + MakeLine(serial, p)));
  }

  lemma CutLineIs()
    ensures |CUT_LINE| == LINE_LENGTH - 1 && '\n' !in CUT_LINE && NUL !in CUT_LINE && !Complete(CUT_LINE)
    ensures Updated(CUT_LINE, "SCES-50000", 1_100_000_000, 60) ==
      CUT_LINE + MakeLine("SCES-50000", Played(1_100_000_000, 60))
  {
    hide MakeLine, ParseLine;
    var f := CUT_LINE;
    assert NUL !in "SLUS-20312" && '\n' !in "SLUS-20312" && NUL !in "3600" && '\n' !in "3600";
    assert NUL !in "1000000000" && '\n' !in "1000000000" && |f| == 74;
    ChunkIs(f, 74);
    assert f[..74] == f && f[74..] == "" && Lines(f) == [f];
    Unreadable(f);
  }

  lemma {:induction false} NothingReadable(lines: seq<string>)
    requires AllUnreadable(lines)
    ensures MapOf(lines) == map[]
  {
    hide ParseLine;
    if lines != [] {
      assert forall i :: 0 <= i < |lines| - 1 ==> lines[1..][i] == lines[i + 1];
      NothingReadable(lines[1..]);
    }
  }

  lemma MapOfOne(text: string, r: Record)
    requires ParseLine(text) == Some(r)
    ensures MapOf([text]) == map[r.serial := r.played]
  {
    hide ParseLine;
    assert MapOf([text][1..]) == map[];
  }

  lemma NotNamed(now: seq<string>, was: seq<string>, k: nat, serial: string)
    requires k <= |was| && k <= |now| && now[..k] == was[..k] && AllUnreadable(now[k..])
    requires FirstNaming(was, serial) == |was|
    ensures serial !in MapOf(now)
  {
    hide ParseLine, MapOf;
    forall i | 0 <= i < |now| ensures !Names(now[i], serial) {
      if i < k {
        assert now[i] == now[..k][i] == was[i];
      } else {
        assert now[i] == now[k..][i - k];
      }
    }
    MapOfFirst(now, serial);
  }

  // ---- Runs of updates ----

  /** The same update on the map; a play session has a time, a reset has none. */
  function MapUpdated(m: TimeMap, serial: string, last: int, add: int): TimeMap
  {
    if serial in m then m[serial := Changed(m[serial], last, add)]
    else if last != 0 then m[serial := Played(last, add)]
    else m
  }

  /** Times stay within what a line can hold. */
  predicate InRange(m: TimeMap, serial: string, last: int, add: int)
  {
    && Plain(serial) && 0 <= last < TWO_63 && 0 <= add < TWO_63
    && (serial in m && last != 0 ==> 0 <= m[serial].total + add < TWO_63)
  }

  lemma UpdateKeepsFile(f: string, serial: string, last: int, add: int)
    requires NUL !in f && Complete(f) && InRange(MapOf(Lines(f)), serial, last, add)
    ensures var g := Updated(f, serial, last, add);
            NUL !in g && Complete(g) && MapOf(Lines(g)) == MapUpdated(MapOf(Lines(f)), serial, last, add)
  {
    hide MakeLine, ParseLine, OneLine, Lines, Start, MapOf, Plain;
    var lines := Lines(f);
    var k := FirstNaming(lines, serial);
    MapOfFirst(lines, serial);
    if k < |lines| {
      var p := Changed(MapOf(lines)[serial], last, add);
      UpdateChangesOne(f, serial, last, add);
      MadeLine(serial, p);
      LinesHaveNoNul(f, k);
      ReadableLength(lines[k]);
      LinesOverwritten(f, k, MakeLine(serial, p));
      OneLineFacts(MakeLine(serial, p));
    } else {
      UpdateAddsOne(f, serial, last, add);
      if last != 0 {
        MadeLine(serial, Played(last, add));
        LinesAppended(f, MakeLine(serial, Played(last, add)));
        OneLineFacts(MakeLine(serial, Played(last, add)));
      }
    }
  }

  /** AddPlayedTimeForSerial and, with two zeroes, ClearPlayedTimeForSerial. */
  datatype Op = Op(serial: string, last: int, add: int)

  function RunFile(f: string, ops: seq<Op>): string
    decreases |ops|
  {
    if ops == [] then f
    else RunFile(if ops[0].serial == "" then f else Updated(f, ops[0].serial, ops[0].last, ops[0].add), ops[1..])
  }

  function RunMap(m: TimeMap, ops: seq<Op>): TimeMap
    decreases |ops|
  {
    if ops == [] then m
    else RunMap(if ops[0].serial == "" then m else MapUpdated(m, ops[0].serial, ops[0].last, ops[0].add), ops[1..])
  }

  function Sum(ops: seq<Op>): int {
    if ops == [] then 0 else ops[0].add + Sum(ops[1..])
  }

  /** A run of sessions of one serial: its total grows by the sum of the times played, its last time is the
      last session's, and no other serial is touched. */
  lemma {:induction false} SessionsAddUp(m: TimeMap, serial: string, ops: seq<Op>)
    requires serial != "" && ops != []
    requires forall i | 0 <= i < |ops| :: ops[i].serial == serial && ops[i].last != 0
    ensures var before := if serial in m then m[serial].total else 0;
            RunMap(m, ops) == m[serial := Played(ops[|ops| - 1].last, before + Sum(ops))]
    decreases |ops|
  {
    var n := MapUpdated(m, serial, ops[0].last, ops[0].add);
    if |ops| == 1 {
      assert ops[1..] == [] && Sum(ops[1..]) == 0;
    } else {
      SessionsAddUp(n, serial, ops[1..]);
    }
  }

  /** A reset leaves both times at zero, and forgets nothing else. */
  lemma ResetClears(m: TimeMap, serial: string)
    ensures MapUpdated(m, serial, 0, 0) == if serial in m then m[serial := Played(0, 0)] else m
  {
  }

  predicate RunInRange(m: TimeMap, ops: seq<Op>)
    decreases |ops|
  {
    ops == []
    || if ops[0].serial == "" then RunInRange(m, ops[1..])
       else
         && InRange(m, ops[0].serial, ops[0].last, ops[0].add)
         && RunInRange(MapUpdated(m, ops[0].serial, ops[0].last, ops[0].add), ops[1..])
  }

  /** Over any run of sessions and resets the file stands for the map that the same run
      makes of the map it stood for. */
  lemma {:induction false} RunRefinesMap(f: string, ops: seq<Op>)
    requires NUL !in f && Complete(f) && RunInRange(MapOf(Lines(f)), ops)
    ensures MapOf(Lines(RunFile(f, ops))) == RunMap(MapOf(Lines(f)), ops)
    ensures NUL !in RunFile(f, ops) && Complete(RunFile(f, ops))
    decreases |ops|
  {
    hide Updated, Lines, MapOf, MapUpdated, InRange, Complete;
    if ops != [] {
      var op := ops[0];
      if op.serial == "" {
        RunRefinesMap(f, ops[1..]);
      } else {
        UpdateKeepsFile(f, op.serial, op.last, op.add);
        RunRefinesMap(Updated(f, op.serial, op.last, op.add), ops[1..]);
      }
    }
  }

  // ---- The file ----

  lemma {:induction false} AtLine(f: string, k: nat)
    requires k <= |Lines(f)|
    ensures Lines(f)[k..] == Lines(f[Start(f, k)..])
    ensures k < |Lines(f)| ==>
              var rest := f[Start(f, k)..];
              rest != "" && Lines(f)[k] == rest[..Chunk(rest)] && Start(f, k + 1) == Start(f, k) + Chunk(rest)
    ensures k == |Lines(f)| ==> Start(f, k) == |f|
    decreases |f|
  {
    hide Chunk, Lines, Start;
    SomeLines(f);
    StartFirst(f);
    if Lines(f) != [] {
      Unfold(f);
      var n, g := Chunk(f), f[Chunk(f)..];
      if k == 0 {
        StartFirst(g);
        StartNext(f, 1);
        assert f[0..] == f;
      } else {
        AtLine(g, k - 1);
        var p := Start(g, k - 1);
        StartNext(f, k);
        assert f[n + p..] == g[p..];
        Shifted(f[..n], Lines(g), k, "");
        if k < |Lines(f)| {
          StartNext(f, k + 1);
        }
      }
    }
  }

  class File {
    var text: string

    /** fgets at position p: the next chunk and the position behind it. */
    method Gets(p: nat) returns (line: string, next: nat, ok: bool)
      requires p <= |text|
      ensures ok == (p < |text|)
      ensures ok ==> var rest := text[p..]; line == rest[..Chunk(rest)] && next == p + Chunk(rest)
      ensures !ok ==> next == p && line == ""
    {
      if p == |text| {
        return "", p, false;
      }
      ghost var rest := text[p..];
      var n := 0;
      while n < BUFFER && p + n < |text| && (n == 0 || text[p + n - 1] != '\n')
        invariant n <= BUFFER && p + n <= |text|
        invariant forall i :: 0 <= i < n - 1 ==> rest[i] != '\n'
      {
        n := n + 1;
      }
      ChunkIs(rest, n);
      assert text[p..p + n] == rest[..n];
      return text[p..p + n], p + n, true;
    }

    /** LoadPlayedTimeMap: the first entry for a serial stays. */
    method Load() returns (ret: TimeMap)
      ensures ret == MapOf(Lines(text))
    {
      hide Lines, MapOf, ParseLine, Chunk;
      ret := map[];
      var line, p, ok := Gets(0);
      ghost var k := 0;
      AtLine(text, 0);
      assert text[0..] == text && Start(text, 0) == 0;
      while ok
        invariant k <= |Lines(text)|
        invariant ok ==> k < |Lines(text)| && line == Lines(text)[k] && p == Start(text, k + 1)
        invariant !ok ==> k == |Lines(text)|
        invariant MapOf(Lines(text)) == MapOf(Lines(text)[k..]) + ret
        decreases |Lines(text)| - k
      {
        MapOfTail(Lines(text), k);
        match ParseLine(line) {
          case None =>
          case Some(r) =>
            if r.serial !in ret {
              ret := ret[r.serial := r.played];
            }
        }
        k := k + 1;
        AtLine(text, k);
        line, p, ok := Gets(p);
      }
      assert Lines(text)[k..] == [];
      MapOfUnreadable([]);
    }

    /** UpdatePlayedTimeFile. */
    method Update(serial: string, last: int, add: int) returns (entry: Played)
      modifies this
      ensures text == Updated(old(text), serial, last, add)
      ensures entry == if serial in MapOf(Lines(old(text))) then Changed(MapOf(Lines(old(text)))[serial], last, add)
                       else Played(last, add)
    {
      hide Lines, MapOf, ParseLine, Chunk, MakeLine, Overwritten;
      ghost var k, lines := 0, Lines(text);
      MapOfFirst(lines, serial);
      AtLine(text, 0);
      assert text[0..] == text;
      var linePos := 0;
      while true
        invariant text == old(text) && k <= |lines| && linePos == Start(text, k)
        invariant forall i :: 0 <= i < k ==> !Names(lines[i], serial)
        decreases |lines| - k
      {
        AtLine(text, k);
        var line, next, ok := Gets(linePos);
        if !ok {
          break;
        }
        assert k < |lines|;
        var record := ParseLine(line);
        if record.Some? && record.value.serial == serial {
          var e := Played(if last != 0 then last else 0, if last != 0 then record.value.played.total + add else 0);
          FirstNamingIs(lines, serial, k);
          Write(linePos, MakeLine(serial, e));
          return e;
        }
        k := k + 1;
        linePos := next;
      }
      assert k == |lines|;
      FirstNamingIs(lines, serial, k);
      if last != 0 {
        text := text + MakeLine(serial, Played(last, add));
      }
      return Played(last, add);
    }

    /** AddPlayedTimeForSerial: on a well-kept file the map changes at this serial only. */
    method AddPlayedTime(serial: string, last: int, add: int)
      modifies this
      ensures text == RunFile(old(text), [Op(serial, last, add)])
      ensures serial != "" && NUL !in old(text) && Complete(old(text))
              && InRange(MapOf(Lines(old(text))), serial, last, add) ==>
                && MapOf(Lines(text)) == MapUpdated(MapOf(Lines(old(text))), serial, last, add)
                && NUL !in text && Complete(text)
    {
      hide Updated, Lines, MapOf, MapUpdated, InRange, Complete;
      assert [Op(serial, last, add)][1..] == [];
      if serial == "" {
        return;
      }
      if NUL !in text && Complete(text) && InRange(MapOf(Lines(text)), serial, last, add) {
        UpdateKeepsFile(text, serial, last, add);
      }
      var entry := Update(serial, last, add);
    }

    /** Seeking to p and writing there. */
    method Write(p: nat, s: string)
      requires p <= |text|
      modifies this
      ensures text == Overwritten(old(text), p, s)
    {
      text := text[..p] + s + if p + |s| <= |text| then text[p + |s|..] else "";
    }
  }

  lemma FirstNamingIs(lines: seq<string>, serial: string, k: nat)
    requires k <= |lines| && forall i :: 0 <= i < k ==> !Names(lines[i], serial)
    requires k < |lines| ==> Names(lines[k], serial)
    ensures FirstNaming(lines, serial) == k
  {
    var j := FirstNaming(lines, serial);
    if j < k {
      assert false;
    }
  }

  lemma MapOfTail(lines: seq<string>, k: nat)
    requires k < |lines|
    ensures MapOf(lines[k..]) == match ParseLine(lines[k])
                                 case None => MapOf(lines[k + 1..])
                                 case Some(r) => MapOf(lines[k + 1..])[r.serial := r.played]
  {
    hide ParseLine;
    assert lines[k..][1..] == lines[k + 1..];
  }
}
