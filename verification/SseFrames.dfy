// From the body of a response to its records: how lines and events are cut, and that a turn
// written out as server-sent events is read back and accepted.
module SseFrames {
  import opened Basics
  import opened Json
  import opened CanonicalJson
  import opened CanonicalText
  import opened SseTurn

  // ----- line ends -----

  // No carriage return before a line feed.
  predicate NoPair(s: Text) { forall i :: 0 <= i < |s| - 1 ==> !(s[i] == 13 && s[i + 1] == 10) }

  lemma {:induction false} NoPairTail(s: Text)
    requires NoPair(s) && s != []
    ensures NoPair(s[1..])
  {
    forall i | 0 <= i < |s[1..]| - 1 ensures !(s[1..][i] == 13 && s[1..][i + 1] == 10) {
      assert s[1..][i] == s[i + 1] && s[1..][i + 1] == s[i + 2];
    }
  }

  // Each pair becomes one line feed; everything else stays.
  lemma {:induction false} UnixConverts(a: Text, b: Text)
    requires NoPair(a)
    ensures Unix(a) == a && Unix(a + [13, 10] + b) == a + [10] + Unix(b)
  {
    var s := a + [13, 10] + b;
    if a == [] {
      assert s[2..] == b;
    } else {
      NoPairTail(a);
      UnixConverts(a[1..], b);
      assert s[1..] == a[1..] + [13, 10] + b;
      assert |a| == 1 ==> s[1] == 13;
      assert |a| >= 2 ==> s[1] == a[1] && !(a[0] == 13 && a[1] == 10);
      assert a == [a[0]] + a[1..];
    }
  }

  // ----- lines and events -----

  predicate NoFeed(s: Text) { forall i :: 0 <= i < |s| ==> s[i] != 10 }

  // The lines are the text between its line feeds.
  lemma {:induction false} LinesAre(s: Text, line: Text)
    requires NoFeed(line)
    ensures Lines(s, line) != [] && JoinLines(Lines(s, line)) == line + s
    ensures forall k :: 0 <= k < |Lines(s, line)| ==> NoFeed(Lines(s, line)[k])
  {
    if s == [] {
    } else if s[0] == 10 {
      LinesAre(s[1..], []);
      var more := Lines(s[1..], []);
      assert ([line] + more)[1..] == more;
      assert line + s == line + [10] + ([] + s[1..]);
    } else {
      LinesAre(s[1..], line + [s[0]]);
      assert line + s == line + [s[0]] + s[1..];
    }
  }

  // Two line feeds in a row nowhere.
  predicate NoGap(s: Text) { forall i :: 0 <= i < |s| - 1 ==> !(s[i] == 10 && s[i + 1] == 10) }

  lemma {:induction false} NoGapTail(s: Text)
    requires NoGap(s) && s != []
    ensures NoGap(s[1..])
  {
    forall i | 0 <= i < |s[1..]| - 1 ensures !(s[1..][i] == 10 && s[1..][i + 1] == 10) {
      assert s[1..][i] == s[i + 1] && s[1..][i + 1] == s[i + 2];
    }
  }

  function Feeds(n: nat): Text { seq(n, _ => 10) }

  lemma {:induction false} FeedsDrop(n: nat, rest: Text)
    requires rest == [] || rest[0] != 10
    ensures DropLineFeeds(Feeds(n) + rest) == rest
  {
    if n == 0 {
      assert Feeds(n) + rest == rest;
    } else {
      FeedsDrop(n - 1, rest);
      assert (Feeds(n) + rest)[1..] == Feeds(n - 1) + rest;
    }
  }

  lemma {:induction false} GapFree(s: Text)
    requires NoGap(s) && |s| >= 2
    ensures !(s[0] == 10 && s[1] == 10)
  {
  }

  // An event ends at two or more line feeds, all of which go, or at the end of the body.
  lemma {:induction false} EventsAre(e: Text, n: nat, rest: Text, event: Text)
    requires NoGap(e) && (e != [] ==> e[|e| - 1] != 10) && n >= 2 && (rest == [] || rest[0] != 10)
    ensures Events(e, event) == [event + e]
    ensures Events(e + Feeds(n) + rest, event) == [event + e] + Events(rest, [])
    decreases |e|
  {
    hide DropLineFeeds, NoGap;
    var s := e + Feeds(n) + rest;
    if e == [] {
      FeedsDrop(n - 2, rest);
      assert s[2..] == Feeds(n - 2) + rest;
      assert event + e == event;
    } else {
      var tail := e[1..];
      NoGapTail(e);
      assert tail != [] ==> tail[|tail| - 1] == e[|e| - 1];
      EventsAre(tail, n, rest, event + [e[0]]);
      assert s[1..] == tail + Feeds(n) + rest;
      assert event + [e[0]] + tail == event + e;
      if |e| >= 2 { GapFree(e); }
      assert |e| >= 2 ==> s[1] == e[1];
    }
  }

  // A data line gives what follows "data:", less one space; any other line gives nothing.
  lemma {:induction false} DataLinesAre(line: Text, lines: seq<Text>)
    ensures !(Ascii("data:") <= line) ==> DataLines([line] + lines) == DataLines(lines)
    ensures DataLines([Ascii("data:") + [32] + line] + lines) == [line] + DataLines(lines)
    ensures line == [] || line[0] != 32 ==> DataLines([Ascii("data:") + line] + lines) == [line] + DataLines(lines)
  {
    var prefix := Ascii("data:");
    assert ([line] + lines)[1..] == lines;
    var spaced, plain := prefix + [32] + line, prefix + line;
    assert ([spaced] + lines)[1..] == lines && ([plain] + lines)[1..] == lines;
    assert prefix <= spaced && spaced[5] == 32 && spaced[6..] == line;
    assert prefix <= plain && plain[5..] == line && (line != [] ==> plain[5] == line[0]);
  }

  // ----- a written turn -----

  predicate Visible(s: Text) { forall i :: 0 <= i < |s| ==> s[i] >= 32 }

  lemma {:induction false} QuoteVisible(text: Text)
    ensures Visible(QuoteBody(text))
    decreases |text|
  {
    if text == [] {
    } else if |text| >= 2 && IsHigh(text[0]) && IsLow(text[1]) {
      QuoteVisible(text[2..]);
    } else {
      QuoteVisible(text[1..]);
      EscapeVisible(text[0]);
      hide EscapeUnit;
    }
  }

  lemma {:induction false} EscapeVisible(u: Unit)
    ensures Visible(EscapeUnit(u))
  {
  }

  lemma {:induction false} NumberVisible(v: Js)
    requires v.Num? || v.Frac?
    ensures Visible(Printed(v))
  {
    if v.Num? {
      DigitsVisible(Magnitude(v.number));
      hide Digits;
    } else {
      var d := Digits(Magnitude(v.fraction.mantissa));
      DigitsVisible(Magnitude(v.fraction.mantissa));
      PointVisible(d, v.fraction.scale);
      hide Digits, PointText;
    }
  }

  lemma {:induction false} DigitsVisible(n: nat)
    ensures Visible(Digits(n))
  {
    DigitsRead(n, []);
    hide Digits;
  }

  lemma {:induction false} PointVisible(d: Text, scale: nat)
    requires d != [] && scale >= 1 && Visible(d)
    ensures Visible(PointText(d, scale))
  {
    hide Digits;
    var e := |d| - scale - 1;
    DigitsVisible(if e < 0 then -e else e);
  }

  // A canonical text holds no control character, so no line feed either.
  lemma {:induction false} PrintedVisible(v: Js)
    ensures Visible(Printed(v))
    decreases v, 1
  {
    match v
    case Num(_) => NumberVisible(v);
    case Frac(_) => NumberVisible(v);
    case Str(text) => QuoteVisible(text);
    case Arr(items) => ItemsVisible(items);
    case Obj(members) => MembersVisible(members);
    case _ =>
  }

  lemma {:induction false} ItemsVisible(items: seq<Js>)
    ensures Visible(PrintedItems(items))
    decreases items, 0
  {
    if items != [] {
      PrintedVisible(items[0]);
      ItemsVisible(items[1..]);
      hide Printed;
    }
  }

  lemma {:induction false} MembersVisible(members: seq<Entry>)
    ensures Visible(PrintedMembers(members))
    decreases members, 0
  {
    if members != [] {
      PrintedVisible(members[0].value);
      QuoteVisible(members[0].name);
      MembersVisible(members[1..]);
      hide Printed, QuoteBody;
    }
  }

  function FrameText(r: Record): Text { Ascii("data:") + [32] + Printed(Obj(r)) }

  // The records one after the other, each as one data line and a blank one.
  function Body(rs: seq<Record>): Text { if rs == [] then [] else FrameText(rs[0]) + Feeds(2) + Body(rs[1..]) }

  function FrameTexts(rs: seq<Record>): seq<Text> { if rs == [] then [] else [FrameText(rs[0])] + FrameTexts(rs[1..]) }

  lemma {:induction false} FrameVisible(r: Record)
    ensures Visible(FrameText(r)) && FrameText(r) != [] && FrameText(r)[0] == 100
  {
    PrintedVisible(Obj(r));
    hide Printed;
  }

  lemma {:induction false} BodyPlain(rs: seq<Record>)
    ensures forall i :: 0 <= i < |Body(rs)| ==> Body(rs)[i] != 13
    ensures Body(rs) != [] ==> Body(rs)[0] != 10
  {
    if rs != [] {
      BodyPlain(rs[1..]);
      FrameVisible(rs[0]);
      hide FrameText;
    }
  }

  lemma {:induction false} VisibleOneEvent(s: Text)
    requires Visible(s) && s != []
    ensures NoGap(s) && NoFeed(s) && s[|s| - 1] != 10
  {
  }

  lemma {:induction false} BodyEvents(rs: seq<Record>)
    ensures Events(Body(rs), []) == FrameTexts(rs) + [[]]
  {
    hide FrameText, Events, Visible, NoGap, NoFeed, Feeds;
    if rs != [] {
      var first, rest := FrameText(rs[0]), Body(rs[1..]);
      BodyEvents(rs[1..]);
      BodyPlain(rs[1..]);
      FrameVisible(rs[0]);
      VisibleOneEvent(first);
      EventsAre(first, 2, rest, []);
      assert [] + first == first;
      assert [first] + (FrameTexts(rs[1..]) + [[]]) == [first] + FrameTexts(rs[1..]) + [[]];
    } else {
      NoEvents();
      assert FrameTexts(rs) + [[]] == [[]];
    }
  }

  lemma {:induction false} NoEvents()
    ensures Events([], []) == [[]]
  {
  }

  lemma {:induction false} ParsesBack(r: Record)
    requires Plain(Obj(r))
    ensures Parse(Printed(Obj(r))) == Parsed(Obj(r), [])
  {
    hide Printed, Plain, ReadValue;
    ValueReads(Obj(r), []);
    assert Printed(Obj(r)) + [] == Printed(Obj(r));
  }

  lemma {:induction false} FrameReads(r: Record)
    requires Plain(Obj(r))
    ensures ReadFrame(FrameText(r)) == Data(r)
  {
    hide Printed, Plain, Parse, Lines, DataLines, Visible, NoFeed, FrameText;
    var text := Printed(Obj(r));
    ParsesBack(r);
    FrameVisible(r);
    VisibleOneEvent(FrameText(r));
    OneLine(FrameText(r), []);
    FrameLine(r);
    assert [] + FrameText(r) == FrameText(r);
    assert JoinLines([text]) == text;
  }

  lemma {:induction false} FrameLine(r: Record)
    ensures DataLines([FrameText(r)]) == [Printed(Obj(r))]
  {
    hide Printed, Ascii;
    var text := Printed(Obj(r));
    DataLinesAre(text, []);
    assert DataLines([]) == [];
    hide DataLines;
    assert [FrameText(r)] + [] == [FrameText(r)] && [text] + [] == [text];
  }

  lemma {:induction false} OneLine(s: Text, line: Text)
    requires NoFeed(s)
    ensures Lines(s, line) == [line + s]
  {
    if s == [] {
      assert line + s == line;
    } else {
      OneLine(s[1..], line + [s[0]]);
      assert line + [s[0]] + s[1..] == line + s;
    }
  }

  lemma {:induction false} FramesSnoc(rs: seq<Record>)
    requires rs != []
    ensures var n := |rs| - 1; FrameTexts(rs) == FrameTexts(rs[..n]) + [FrameText(rs[n])]
  {
    hide FrameText;
    var n := |rs| - 1;
    if n > 0 {
      FramesSnoc(rs[1..]);
      assert rs[1..][..n - 1] == rs[..n][1..];
    } else {
      assert FrameTexts(rs[1..]) == [] && FrameTexts(rs[..n]) == [];
    }
  }

  lemma {:induction false} RecordsSnoc(events: seq<Text>, event: Text, rs: seq<Record>)
    requires Records(events) == Some(rs)
    ensures ReadFrame(event).Data? ==> Records(events + [event]) == Some(rs + [ReadFrame(event).members])
    ensures ReadFrame(event).Comment? ==> Records(events + [event]) == Some(rs)
  {
    hide ReadFrame;
    assert (events + [event])[..|events|] == events;
  }

  lemma {:induction false} NoFrames()
    ensures Records(FrameTexts([])) == Some([])
  {
  }

  lemma {:induction false} FramesRead(rs: seq<Record>)
    requires forall i :: 0 <= i < |rs| ==> Plain(Obj(rs[i]))
    ensures Records(FrameTexts(rs)) == Some(rs)
  {
    hide *;
    if rs == [] {
      NoFrames();
    } else {
      var n := |rs| - 1;
      FramesRead(rs[..n]);
      FramesSnoc(rs);
      FrameReads(rs[n]);
      RecordsSnoc(FrameTexts(rs[..n]), FrameText(rs[n]), rs[..n]);
      assert rs == rs[..n] + [rs[n]];
    }
  }

  lemma {:induction false} BlankFrame()
    ensures ReadFrame([]) == Comment
  {
    assert DataLines([[]]) == [];
  }

  lemma {:induction false} BodyUnix(rs: seq<Record>)
    ensures Unix(Body(rs)) == Body(rs)
  {
    hide Body, Unix;
    BodyPlain(rs);
    UnixConverts(Body(rs), []);
  }

  // Records written as server-sent events are read back as they are.
  lemma {:induction false} BodyReads(rs: seq<Record>)
    requires forall i :: 0 <= i < |rs| ==> Plain(Obj(rs[i]))
    ensures Records(Events(Unix(Body(rs)), [])) == Some(rs)
  {
    hide *;
    BodyUnix(rs);
    BodyEvents(rs);
    FramesRead(rs);
    BlankFrame();
    RecordsSnoc(FrameTexts(rs), [], rs);
  }

  // So every turn of the grammar, written out, is accepted with the trimmed text of its deltas.
  lemma {:induction false} WrittenTurnAccepted(rs: seq<Record>, session: Text, turn: Text)
    requires Turn(rs, session, turn) && forall i :: 0 <= i < |rs| ==> Plain(Obj(rs[i]))
    ensures Accepted(Body(rs), session, turn) == Some(Trim(Draft(rs)))
  {
    hide Turn, Body, Plain, Records, Events, Unix, Trim, Draft;
    BodyReads(rs);
  }
}
