// One drafting turn as the AiNxt adapter reads it: server-sent events whose data lines are
// JSON records. The frame loop is shown equal to a grammar of whole turns.
module SseTurn {
  import opened Basics
  import opened Json
  import Utf8

  const MAX_DRAFT_BYTES := 32_768
  const LINE_FEED: Unit := 10
  const RETURN: Unit := 13

  // ----- from the body to its data records -----

  // body.replace(/\r\n/g, "\n")
  function Unix(s: Text): Text
    decreases |s|
  {
    if s == [] then []
    else if |s| >= 2 && s[0] == RETURN && s[1] == LINE_FEED then [LINE_FEED] + Unix(s[2..])
    else [s[0]] + Unix(s[1..])
  }

  function DropLineFeeds(s: Text): (rest: Text)
    ensures |rest| <= |s|
  {
    if s != [] && s[0] == LINE_FEED then DropLineFeeds(s[1..]) else s
  }

  // split(/\n\n+/), with the text read so far of the current event
  function Events(s: Text, event: Text): seq<Text>
    decreases |s|
  {
    if s == [] then [event]
    else if |s| >= 2 && s[0] == LINE_FEED && s[1] == LINE_FEED then [event] + Events(DropLineFeeds(s[2..]), [])
    else Events(s[1..], event + [s[0]])
  }

  // split("\n")
  function Lines(s: Text, line: Text): seq<Text>
    decreases |s|
  {
    if s == [] then [line]
    else if s[0] == LINE_FEED then [line] + Lines(s[1..], [])
    else Lines(s[1..], line + [s[0]])
  }

  function DataLines(lines: seq<Text>): seq<Text> {
    if lines == [] then []
    else
      var line := lines[0];
      (if Ascii("data:") <= line
       then [if |line| > 5 && line[5] == 32 then line[6..] else line[5..]]
       else [])
      + DataLines(lines[1..])
  }

  function JoinLines(lines: seq<Text>): Text {
    if lines == [] then [] else if |lines| == 1 then lines[0] else lines[0] + [LINE_FEED] + JoinLines(lines[1..])
  }

  datatype Frame = Comment | Broken | Data(members: seq<Entry>)

  // An event without data lines says nothing; one that is not a JSON object is refused.
  function ReadFrame(event: Text): Frame {
    var data := DataLines(Lines(event, []));
    if data == [] then Comment
    else
      var value := Parse(JoinLines(data));
      if value.Parsed? && value.value.Obj? then Data(value.value.members) else Broken
  }

  type Record = seq<Entry>

  // Every data record of the events in order, or None if one of them is broken.
  function Records(events: seq<Text>): Option<seq<Record>> {
    if events == [] then Some([])
    else
      var n := |events| - 1;
      var before := Records(events[..n]);
      var frame := ReadFrame(events[n]);
      if before.None? || frame.Broken? then None
      else if frame.Comment? then before
      else Some(before.value + [frame.members])
  }

  // ----- one record -----

  predicate IsControl(u: Unit) { u < 32 || 127 <= u < 160 }

  predicate ShaShaped(s: Text) {
    |s| == 40 && forall i :: 0 <= i < 40 ==> 48 <= s[i] < 58 || 97 <= s[i] < 103
  }

  predicate EnvelopeOk(r: Record, session: Text, turn: Text) {
    && Get(r, Ascii("v")) == Str(Ascii("1.0"))
    && Get(r, Ascii("seq")).Num? && 0 <= Get(r, Ascii("seq")).number <= MAX_SAFE_INTEGER
    && Get(r, Ascii("session_id")) == Str(session)
    && (Get(r, Ascii("turn_id")) == Undefined || Get(r, Ascii("turn_id")) == Str(turn))
    && Get(r, Ascii("ts")).Str? && 1 <= |Get(r, Ascii("ts")).text| <= 128
    && (forall i :: 0 <= i < |Get(r, Ascii("ts")).text| ==> !IsControl(Get(r, Ascii("ts")).text[i]))
    && Get(r, Ascii("control_plane_sha")).Str? && ShaShaped(Get(r, Ascii("control_plane_sha")).text)
    && Get(r, Ascii("type")).Str?
  }

  function Seq(r: Record): int {
    var v := Get(r, Ascii("seq"));
    if v.Num? then v.number else -1
  }

  function Sha(r: Record): Text {
    var v := Get(r, Ascii("control_plane_sha"));
    if v.Str? then v.text else []
  }

  datatype Kind = Started | Delta | Completed | Failure | Other

  function KindOf(r: Record): Kind {
    var t := Get(r, Ascii("type"));
    if t == Str(Ascii("turn.started")) then Started
    else if t == Str(Ascii("text.delta")) then Delta
    else if t == Str(Ascii("turn.completed")) then Completed
    else if t == Str(Ascii("error")) || t == Str(Ascii("turn.failed")) || t == Str(Ascii("turn.refused")) then Failure
    else Other
  }

  predicate Bound(r: Record, turn: Text) { Get(r, Ascii("turn_id")) == Str(turn) }

  function DeltaText(r: Record): Text {
    var v := Get(r, Ascii("text"));
    if KindOf(r).Delta? && v.Str? then v.text else []
  }

  // The text of the deltas, in order.
  function Draft(rs: seq<Record>): Text {
    if rs == [] then [] else Draft(rs[..|rs| - 1]) + DeltaText(rs[|rs| - 1])
  }

  // String.prototype.trim
  predicate IsBlank(u: Unit) {
    9 <= u <= 13 || u == 32 || u == 160 || u == 0x1680 || 0x2000 <= u <= 0x200A
    || u == 0x2028 || u == 0x2029 || u == 0x202F || u == 0x205F || u == 0x3000 || u == 0xFEFF
  }

  function TrimStart(s: Text): Text { if s != [] && IsBlank(s[0]) then TrimStart(s[1..]) else s }

  function TrimEnd(s: Text): Text { if s != [] && IsBlank(s[|s| - 1]) then TrimEnd(s[..|s| - 1]) else s }

  function Trim(s: Text): Text { TrimEnd(TrimStart(s)) }

  // ----- the grammar of a turn -----

  ghost predicate OneSource(rs: seq<Record>, session: Text, turn: Text) {
    && (forall i :: 0 <= i < |rs| ==> EnvelopeOk(rs[i], session, turn))
    && (forall i, j :: 0 <= i < j < |rs| ==> Seq(rs[i]) < Seq(rs[j]))
    && (forall i, j :: 0 <= i < j < |rs| ==> Sha(rs[i]) == Sha(rs[j]))
  }

  ghost predicate StartedOnce(rs: seq<Record>) {
    && (forall i, j :: 0 <= i < j < |rs| && KindOf(rs[i]).Started? ==> !KindOf(rs[j]).Started?)
    && (forall j :: 0 <= j < |rs| && (KindOf(rs[j]).Delta? || KindOf(rs[j]).Completed?) ==> HasStart(rs, j))
  }

  ghost predicate HasStart(rs: seq<Record>, n: int)
    requires n <= |rs|
  {
    exists i :: 0 <= i < n && KindOf(rs[i]).Started?
  }

  ghost predicate WellSaid(r: Record, turn: Text) {
    match KindOf(r)
    case Started => Bound(r, turn)
    case Delta => Bound(r, turn) && Get(r, Ascii("text")).Str?
    case Completed => Bound(r, turn) && Get(r, Ascii("outcome")) == Str(Ascii("complete"))
    case Failure => false
    case Other => true
  }

  ghost predicate AllWellSaid(rs: seq<Record>, turn: Text) { forall i :: 0 <= i < |rs| ==> WellSaid(rs[i], turn) }

  // Nothing follows a completion.
  ghost predicate CompletedLast(rs: seq<Record>) { forall i :: 0 <= i < |rs| - 1 ==> !KindOf(rs[i]).Completed? }

  // One source; one start, before all text; every record in its place; one successful
  // completion, as the last record; a draft that fits and is not blank.
  ghost predicate Turn(rs: seq<Record>, session: Text, turn: Text) {
    && OneSource(rs, session, turn)
    && StartedOnce(rs)
    && AllWellSaid(rs, turn)
    && rs != [] && KindOf(rs[|rs| - 1]).Completed?
    && CompletedLast(rs)
    && |Utf8.Encode(Draft(rs))| <= MAX_DRAFT_BYTES
    && Trim(Draft(rs)) != []
  }

  // A proper beginning of a turn.
  ghost predicate Beginning(rs: seq<Record>, session: Text, turn: Text) {
    && OneSource(rs, session, turn)
    && StartedOnce(rs)
    && AllWellSaid(rs, turn)
    && CompletedLast(rs)
    && |Utf8.Encode(Draft(rs))| <= MAX_DRAFT_BYTES
  }

  // ----- a longer text never takes fewer bytes -----

  lemma {:induction false} LongerEncodes(a: Text, b: Text)
    ensures |Utf8.Encode(a)| <= |Utf8.Encode(a + b)|
    decreases |a|
  {
    if a == [] {
    } else if |a| >= 2 && IsHigh(a[0]) && IsLow(a[1]) {
      LongerEncodes(a[2..], b);
      assert (a + b)[2..] == a[2..] + b;
    } else if |a| == 1 && b != [] && IsHigh(a[0]) && IsLow(b[0]) {
      assert a[1..] == [];
    } else {
      LongerEncodes(a[1..], b);
      assert (a + b)[1..] == a[1..] + b;
    }
  }

  lemma {:induction false} DraftGrows(rs: seq<Record>, n: nat)
    requires n <= |rs|
    ensures |Utf8.Encode(Draft(rs[..n]))| <= |Utf8.Encode(Draft(rs))|
    decreases |rs|
  {
    if n < |rs| {
      var m := |rs| - 1;
      DraftGrows(rs[..m], n);
      assert rs[..m][..n] == rs[..n];
      LongerEncodes(Draft(rs[..m]), DeltaText(rs[m]));
    } else {
      assert rs[..n] == rs;
    }
  }

  lemma {:induction false} StartedOncePrefix(rs: seq<Record>, n: nat)
    requires StartedOnce(rs) && n <= |rs|
    ensures StartedOnce(rs[..n])
  {
    hide KindOf;
    var p := rs[..n];
    forall j | 0 <= j < n && (KindOf(p[j]).Delta? || KindOf(p[j]).Completed?) ensures HasStart(p, j) {
      assert HasStart(rs, j);
      var i :| 0 <= i < j && KindOf(rs[i]).Started?;
      assert KindOf(p[i]).Started?;
    }
  }

  lemma {:induction false} OneSourcePrefix(rs: seq<Record>, n: nat, session: Text, turn: Text)
    requires OneSource(rs, session, turn) && n <= |rs|
    ensures OneSource(rs[..n], session, turn)
  {
    hide EnvelopeOk, Seq, Sha;
  }

  // Every beginning of a turn is a proper beginning: the loop may stop at the first that is not.
  lemma {:induction false} TurnBegins(rs: seq<Record>, n: nat, session: Text, turn: Text)
    requires Turn(rs, session, turn) && n <= |rs|
    ensures Beginning(rs[..n], session, turn)
  {
    DraftGrows(rs, n);
    OneSourcePrefix(rs, n, session, turn);
    StartedOncePrefix(rs, n);
    hide OneSource, StartedOnce, WellSaid, KindOf, Draft, Utf8.Encode, Trim;
  }

  lemma {:induction false} RecordsPrefix(events: seq<Text>, n: nat)
    requires n <= |events|
    ensures Records(events[..n]).None? ==> Records(events).None?
    ensures Records(events).Some? ==> Records(events[..n]).Some? && Records(events[..n]).value <= Records(events).value
    decreases |events|
  {
    hide ReadFrame;
    if n < |events| {
      var m := |events| - 1;
      RecordsPrefix(events[..m], n);
      assert events[..m][..n] == events[..n];
    } else {
      assert events[..n] == events;
    }
  }

  // ----- what the loop checks of the next record is what the grammar asks -----

  ghost predicate Admits(rs: seq<Record>, r: Record, session: Text, turn: Text) {
    && EnvelopeOk(r, session, turn)
    && (rs != [] ==> Seq(rs[|rs| - 1]) < Seq(r) && Sha(rs[|rs| - 1]) == Sha(r) && !KindOf(rs[|rs| - 1]).Completed?)
    && (KindOf(r).Started? ==> !HasStart(rs, |rs|))
    && (KindOf(r).Delta? || KindOf(r).Completed? ==> HasStart(rs, |rs|))
    && WellSaid(r, turn)
    && |Utf8.Encode(Draft(rs) + DeltaText(r))| <= MAX_DRAFT_BYTES
  }

  lemma {:induction false} SourceStep(rs: seq<Record>, r: Record, session: Text, turn: Text)
    requires OneSource(rs, session, turn)
    ensures OneSource(rs + [r], session, turn) <==>
      EnvelopeOk(r, session, turn) && (rs != [] ==> Seq(rs[|rs| - 1]) < Seq(r) && Sha(rs[|rs| - 1]) == Sha(r))
  {
    hide EnvelopeOk, Seq, Sha;
    var n := |rs|;
    var all := rs + [r];
    if OneSource(all, session, turn) {
      assert all[n] == r && (n > 0 ==> all[n - 1] == rs[n - 1]);
    }
    if EnvelopeOk(r, session, turn) && (n > 0 ==> Seq(rs[n - 1]) < Seq(r) && Sha(rs[n - 1]) == Sha(r)) {
      forall i | 0 <= i < n ensures Seq(rs[i]) < Seq(r) && Sha(rs[i]) == Sha(r) {
        if i < n - 1 { assert Seq(rs[i]) < Seq(rs[n - 1]) && Sha(rs[i]) == Sha(rs[n - 1]); }
      }
    }
  }

  lemma {:induction false} StartStep(rs: seq<Record>, r: Record)
    requires StartedOnce(rs)
    ensures StartedOnce(rs + [r]) <==>
      (KindOf(r).Started? ==> !HasStart(rs, |rs|)) && (KindOf(r).Delta? || KindOf(r).Completed? ==> HasStart(rs, |rs|))
  {
    hide KindOf;
    var n := |rs|;
    var all := rs + [r];
    assert all[n] == r;
    assert forall i :: 0 <= i < n ==> all[i] == rs[i];
    assert forall j :: 0 <= j <= n ==> HasStart(all, j) == HasStart(rs, j);
    if StartedOnce(all) && (KindOf(r).Delta? || KindOf(r).Completed?) { assert HasStart(all, n); }
  }

  lemma {:induction false} DraftSnoc(rs: seq<Record>, r: Record)
    ensures Draft(rs + [r]) == Draft(rs) + DeltaText(r)
  {
    hide DeltaText;
    assert (rs + [r])[..|rs|] == rs;
  }

  lemma {:induction false} PlacesStep(rs: seq<Record>, r: Record, turn: Text)
    requires AllWellSaid(rs, turn) && CompletedLast(rs)
    ensures AllWellSaid(rs + [r], turn) <==> WellSaid(r, turn)
    ensures CompletedLast(rs + [r]) <==> (rs != [] ==> !KindOf(rs[|rs| - 1]).Completed?)
  {
    hide WellSaid, KindOf;
    assert forall i :: 0 <= i < |rs| ==> (rs + [r])[i] == rs[i];
    assert (rs + [r])[|rs|] == r;
  }

  lemma {:induction false} BeginningStep(rs: seq<Record>, r: Record, session: Text, turn: Text)
    requires Beginning(rs, session, turn)
    ensures Beginning(rs + [r], session, turn) <==> Admits(rs, r, session, turn)
    ensures Draft(rs + [r]) == Draft(rs) + DeltaText(r)
  {
    SourceStep(rs, r, session, turn);
    StartStep(rs, r);
    PlacesStep(rs, r, turn);
    DraftSnoc(rs, r);
    hide OneSource, StartedOnce, AllWellSaid, CompletedLast, WellSaid, KindOf, EnvelopeOk, HasStart, DeltaText, Draft,
         Seq, Sha, Utf8.Encode;
  }

  // What the adapter returns for a body.
  ghost function Accepted(body: Text, session: Text, turn: Text): Option<Text> {
    var records := Records(Events(Unix(body), []));
    if records.Some? && Turn(records.value, session, turn) then Some(Trim(Draft(records.value))) else None
  }

  // Once the records read so far are no beginning, no turn follows.
  lemma {:induction false} Hopeless(events: seq<Text>, n: nat, session: Text, turn: Text)
    requires n <= |events| && (Records(events[..n]).None? || !Beginning(Records(events[..n]).value, session, turn))
    ensures Records(events).None? || !Turn(Records(events).value, session, turn)
  {
    hide Turn, Beginning;
    RecordsPrefix(events, n);
    if Records(events).Some? && Turn(Records(events).value, session, turn) {
      var rs := Records(events).value;
      var p := Records(events[..n]).value;
      assert rs[..|p|] == p;
      TurnBegins(rs, |p|, session, turn);
    }
  }

  method ParseSse(body: Text, session: Text, turn: Text) returns (r: Option<Text>)
    ensures r == Accepted(body, session, turn)
  {
    hide ReadFrame, EnvelopeOk, KindOf, WellSaid, Beginning, Turn, Trim, Draft, Utf8.Encode, DeltaText, Seq, Sha,
         HasStart;
    var output: Text := [];
    var started, completed := false, false;
    var previous := -1;
    var sha: Option<Text> := None;
    var events := Events(Unix(body), []);
    ghost var rs: seq<Record> := [];
    NothingYet(session, turn);
    var index := 0;
    while index < |events|
      invariant index <= |events| && Records(events[..index]) == Some(rs) && Beginning(rs, session, turn)
      invariant output == Draft(rs) && started == HasStart(rs, |rs|)
      invariant completed == (rs != [] && KindOf(rs[|rs| - 1]).Completed?)
      invariant rs == [] ==> previous == -1 && sha.None?
      invariant rs != [] ==> previous == Seq(rs[|rs| - 1]) && sha == Some(Sha(rs[|rs| - 1]))
    {
      assert events[..index + 1][..index] == events[..index];
      var frame := ReadFrame(events[index]);
      if frame.Broken? {
        Hopeless(events, index + 1, session, turn);
        return None;
      }
      if frame.Data? {
        var record := frame.members;
        BeginningStep(rs, record, session, turn);
        SeqNatural(record, session, turn);
        var ok := CheckRecord(record, session, turn, previous, sha, started, completed);
        var longer := output + DeltaText(record);
        if !ok || |Utf8.Encode(longer)| > MAX_DRAFT_BYTES {
          assert Records(events[..index + 1]) == Some(rs + [record]);
          Hopeless(events, index + 1, session, turn);
          return None;
        }
        StartSnoc(rs, record);
        rs := rs + [record];
        output := longer;
        previous, sha := Seq(record), Some(Sha(record));
        started := started || KindOf(record).Started?;
        completed := KindOf(record).Completed?;
      }
      index := index + 1;
    }
    assert events[..index] == events;
    WholeTurn(rs, session, turn);
    r := if completed && Trim(output) != [] then Some(Trim(output)) else None;
  }

  // One frame's checks, in the order of the loop body.
  method CheckRecord(r: Record, session: Text, turn: Text, previous: int, sha: Option<Text>, started: bool,
                     completed: bool)
    returns (ok: bool)
    ensures ok == (&& EnvelopeOk(r, session, turn) && previous < Seq(r) && (sha.Some? ==> sha.value == Sha(r))
                   && !completed
                   && (KindOf(r).Started? ==> !started)
                   && (KindOf(r).Delta? || KindOf(r).Completed? ==> started)
                   && WellSaid(r, turn))
  {
    if !EnvelopeOk(r, session, turn) || Seq(r) <= previous { return false; }
    if sha.Some? && Sha(r) != sha.value { return false; }
    if completed { return false; }
    match KindOf(r)
    case Started => return !started && Bound(r, turn);
    case Delta => return started && Bound(r, turn) && Get(r, Ascii("text")).Str?;
    case Completed => return started && Bound(r, turn) && Get(r, Ascii("outcome")) == Str(Ascii("complete"));
    case Failure => return false;
    case Other => return true;
  }

  lemma {:induction false} SeqNatural(r: Record, session: Text, turn: Text)
    ensures EnvelopeOk(r, session, turn) ==> Seq(r) >= 0
  {
  }

  lemma {:induction false} NothingYet(session: Text, turn: Text)
    ensures Beginning([], session, turn) && Draft([]) == [] && !HasStart([], 0)
  {
  }

  lemma {:induction false} StartSnoc(rs: seq<Record>, r: Record)
    ensures HasStart(rs + [r], |rs| + 1) == (HasStart(rs, |rs|) || KindOf(r).Started?)
  {
    hide KindOf;
    var all := rs + [r];
    if HasStart(rs, |rs|) {
      var i :| 0 <= i < |rs| && KindOf(rs[i]).Started?;
      assert KindOf(all[i]).Started?;
    }
    if KindOf(r).Started? { assert KindOf(all[|rs|]).Started?; }
  }

  lemma {:induction false} WholeTurn(rs: seq<Record>, session: Text, turn: Text)
    requires Beginning(rs, session, turn)
    ensures Turn(rs, session, turn) <==> rs != [] && KindOf(rs[|rs| - 1]).Completed? && Trim(Draft(rs)) != []
  {
    hide OneSource, StartedOnce, WellSaid, KindOf, Trim, Draft, Utf8.Encode;
  }

  // ----- what trimming cuts -----

  // The white space and line terminators of ECMA-262 (sections 12.2 and 12.3).
  lemma {:induction false} BlanksAre(u: Unit)
    ensures IsBlank(u) <==>
      u in {9, 10, 11, 12, 13, 32, 0xA0, 0x1680, 0x2000, 0x2001, 0x2002, 0x2003, 0x2004, 0x2005, 0x2006, 0x2007,
            0x2008, 0x2009, 0x200A, 0x2028, 0x2029, 0x202F, 0x205F, 0x3000, 0xFEFF}
  {
  }

  lemma {:induction false} StartCut(s: Text) returns (i: nat)
    ensures i <= |s| && TrimStart(s) == s[i..] && (forall k :: 0 <= k < i ==> IsBlank(s[k]))
    ensures TrimStart(s) != [] ==> !IsBlank(TrimStart(s)[0])
  {
    hide IsBlank;
    i := 0;
    if s != [] && IsBlank(s[0]) {
      var j := StartCut(s[1..]);
      i := j + 1;
      assert s[1..][j..] == s[i..];
      assert forall k :: 0 < k < i ==> s[k] == s[1..][k - 1];
    }
  }

  lemma {:induction false} EndCut(s: Text) returns (j: nat)
    ensures j <= |s| && TrimEnd(s) == s[..j] && (forall k :: j <= k < |s| ==> IsBlank(s[k]))
    ensures TrimEnd(s) != [] ==> !IsBlank(s[j - 1])
  {
    hide IsBlank;
    j := |s|;
    if s != [] && IsBlank(s[|s| - 1]) {
      j := EndCut(s[..|s| - 1]);
      assert s[..|s| - 1][..j] == s[..j];
    }
  }

  // Only white space goes, from both ends, and all of it there: nothing is left of a blank text, and
  // otherwise neither end of what is left is blank.
  lemma {:induction false} TrimCuts(s: Text) returns (i: nat, j: nat)
    ensures i <= j <= |s| && Trim(s) == s[i..j]
    ensures forall k :: 0 <= k < i || j <= k < |s| ==> IsBlank(s[k])
    ensures Trim(s) != [] ==> !IsBlank(s[i]) && !IsBlank(s[j - 1])
    ensures Trim(s) == [] <==> forall k :: 0 <= k < |s| ==> IsBlank(s[k])
  {
    hide IsBlank;
    i := StartCut(s);
    var rest := TrimStart(s);
    var n := EndCut(rest);
    j := i + n;
    assert forall k :: 0 <= k < |rest| ==> rest[k] == s[i + k];
    assert forall k :: j <= k < |s| ==> s[k] == rest[k - i];
  }

  // ----- the grammar, record by record -----

  predicate TypeIs(r: Record, name: string) { Get(r, Ascii("type")) == Str(Ascii(name)) }

  // The members every record carries.
  predicate Stamped(r: Record, session: Text, turn: Text) {
    && Get(r, Ascii("v")) == Str(Ascii("1.0")) && Get(r, Ascii("session_id")) == Str(session)
    && Get(r, Ascii("seq")).Num? && 0 <= Get(r, Ascii("seq")).number <= 9_007_199_254_740_991
    && (Get(r, Ascii("turn_id")) == Str(turn) || Get(r, Ascii("turn_id")) == Undefined)
    && Get(r, Ascii("ts")).Str? && Get(r, Ascii("ts")).text != [] && |Get(r, Ascii("ts")).text| <= 128
    && (forall i :: 0 <= i < |Get(r, Ascii("ts")).text| ==>
          32 <= Get(r, Ascii("ts")).text[i] && !(127 <= Get(r, Ascii("ts")).text[i] <= 159))
    && Get(r, Ascii("control_plane_sha")).Str? && |Get(r, Ascii("control_plane_sha")).text| == 40
    && (forall i :: 0 <= i < 40 ==>
          '0' as int <= Get(r, Ascii("control_plane_sha")).text[i] <= '9' as int
          || 'a' as int <= Get(r, Ascii("control_plane_sha")).text[i] <= 'f' as int)
    && Get(r, Ascii("type")).Str?
  }

  // What the record's own type asks of it.
  predicate Typed(r: Record, turn: Text) {
    && (TypeIs(r, "turn.started") || TypeIs(r, "text.delta") || TypeIs(r, "turn.completed") ==>
          Get(r, Ascii("turn_id")) == Str(turn))
    && (TypeIs(r, "text.delta") ==> Get(r, Ascii("text")).Str?)
    && (TypeIs(r, "turn.completed") ==> Get(r, Ascii("outcome")) == Str(Ascii("complete")))
    && !TypeIs(r, "error") && !TypeIs(r, "turn.failed") && !TypeIs(r, "turn.refused")
  }

  lemma {:induction false} StampedIs(r: Record, session: Text, turn: Text)
    ensures EnvelopeOk(r, session, turn) <==> Stamped(r, session, turn)
    ensures Stamped(r, session, turn) ==>
      Seq(r) == Get(r, Ascii("seq")).number && Sha(r) == Get(r, Ascii("control_plane_sha")).text
  {
    hide Get, Ascii;
  }

  lemma {:induction false} TypesDiffer()
    ensures Ascii("turn.started") != Ascii("text.delta") && Ascii("text.delta") != Ascii("turn.completed")
    ensures Ascii("turn.completed") != Ascii("turn.started")
    ensures forall name :: name in {"turn.started", "text.delta", "turn.completed"} ==>
      Ascii(name) != Ascii("error") && Ascii(name) != Ascii("turn.failed") && Ascii(name) != Ascii("turn.refused")
  {
    assert Ascii("turn.started")[5] == 115 && Ascii("turn.completed")[5] == 99 && Ascii("text.delta")[5] == 100;
    assert Ascii("turn.failed")[5] == 102 && Ascii("turn.refused")[5] == 114 && |Ascii("error")| == 5;
    assert |Ascii("text.delta")| == 10 && |Ascii("turn.failed")| == 11;
  }

  lemma {:induction false} TypedIs(r: Record, turn: Text)
    ensures WellSaid(r, turn) <==> Typed(r, turn)
    ensures KindOf(r).Started? <==> TypeIs(r, "turn.started")
    ensures KindOf(r).Delta? <==> TypeIs(r, "text.delta")
    ensures KindOf(r).Completed? <==> TypeIs(r, "turn.completed")
  {
    TypesDiffer();
    hide Get, Ascii;
  }

  ghost predicate AllStamped(rs: seq<Record>, session: Text, turn: Text) {
    && (forall i :: 0 <= i < |rs| ==> Stamped(rs[i], session, turn))
    && (forall i, j :: 0 <= i < j < |rs| ==>
          && Get(rs[i], Ascii("seq")).number < Get(rs[j], Ascii("seq")).number
          && Get(rs[i], Ascii("control_plane_sha")) == Get(rs[j], Ascii("control_plane_sha")))
  }

  lemma {:induction false} SourceIs(rs: seq<Record>, session: Text, turn: Text)
    ensures OneSource(rs, session, turn) <==> AllStamped(rs, session, turn)
  {
    hide EnvelopeOk, Seq, Sha, Ascii, Get;
    forall i | 0 <= i < |rs|
      ensures EnvelopeOk(rs[i], session, turn) <==> Stamped(rs[i], session, turn)
      ensures Stamped(rs[i], session, turn) ==>
        Seq(rs[i]) == Get(rs[i], Ascii("seq")).number && Sha(rs[i]) == Get(rs[i], Ascii("control_plane_sha")).text
        && Get(rs[i], Ascii("control_plane_sha")).Str?
    {
      StampedIs(rs[i], session, turn);
    }
    hide Stamped;
  }

  // One record starts the turn and the last one ends it; no text comes before the start.
  ghost predicate Placed(rs: seq<Record>, start: nat) {
    && (forall i :: 0 <= i < |rs| ==> (TypeIs(rs[i], "turn.started") <==> i == start))
    && (forall i :: 0 <= i < |rs| ==> (TypeIs(rs[i], "turn.completed") <==> i == |rs| - 1))
    && (forall i :: 0 <= i < start && i < |rs| ==> !TypeIs(rs[i], "text.delta"))
  }

  lemma {:induction false} PlacedIs(rs: seq<Record>, turn: Text, start: nat)
    requires start < |rs| && TypeIs(rs[start], "turn.started")
    ensures Placed(rs, start) <==>
      StartedOnce(rs) && CompletedLast(rs) && KindOf(rs[|rs| - 1]).Completed?
  {
    hide KindOf, TypeIs;
    forall i | 0 <= i < |rs|
      ensures KindOf(rs[i]).Started? <==> TypeIs(rs[i], "turn.started")
      ensures KindOf(rs[i]).Delta? <==> TypeIs(rs[i], "text.delta")
      ensures KindOf(rs[i]).Completed? <==> TypeIs(rs[i], "turn.completed")
    {
      TypedIs(rs[i], turn);
    }
    if StartedOnce(rs) && CompletedLast(rs) && KindOf(rs[|rs| - 1]).Completed? {
      assert forall i :: 0 <= i < start ==> !HasStart(rs, i);
    }
    if Placed(rs, start) {
      forall j | 0 <= j < |rs| && (KindOf(rs[j]).Delta? || KindOf(rs[j]).Completed?) ensures HasStart(rs, j) {
        assert j != start;
        assert start < j;
      }
    }
  }

  // The draft is the text of the deltas, in order, and of no other record.
  lemma {:induction false} DraftIs(rs: seq<Record>, r: Record)
    ensures Draft([]) == []
    ensures Draft(rs + [r])
      == if TypeIs(r, "text.delta") && Get(r, Ascii("text")).Str? then Draft(rs) + Get(r, Ascii("text")).text
         else Draft(rs)
  {
    hide KindOf, TypeIs;
    DraftSnoc(rs, r);
    TypedIs(r, []);
  }

  // A turn: records of one source, each as its type asks, one start before all text, one end as the
  // last record, and a draft that is not blank and fits in 32,768 bytes.
  lemma {:induction false} TurnIs(rs: seq<Record>, session: Text, turn: Text, start: nat)
    requires start < |rs| && TypeIs(rs[start], "turn.started")
    ensures Turn(rs, session, turn) <==>
      && AllStamped(rs, session, turn) && (forall i :: 0 <= i < |rs| ==> Typed(rs[i], turn))
      && Placed(rs, start)
      && |Utf8.Encode(Draft(rs))| <= 32_768
      && exists k :: 0 <= k < |Draft(rs)| && !IsBlank(Draft(rs)[k])
  {
    hide OneSource, AllStamped, StartedOnce, CompletedLast, Placed, KindOf, WellSaid, Typed, TypeIs, Draft,
         Utf8.Encode, Trim, IsBlank;
    SourceIs(rs, session, turn);
    PlacedIs(rs, turn, start);
    forall i | 0 <= i < |rs| ensures WellSaid(rs[i], turn) <==> Typed(rs[i], turn) { TypedIs(rs[i], turn); }
    var i, j := TrimCuts(Draft(rs));
  }

  // Without a start there is none.
  lemma {:induction false} TurnStarts(rs: seq<Record>, session: Text, turn: Text)
    requires Turn(rs, session, turn)
    ensures exists start :: 0 <= start < |rs| && TypeIs(rs[start], "turn.started")
  {
    hide OneSource, WellSaid, Draft, Utf8.Encode, Trim, KindOf, TypeIs;
    assert HasStart(rs, |rs| - 1);
    var start :| 0 <= start < |rs| - 1 && KindOf(rs[start]).Started?;
    TypedIs(rs[start], turn);
  }
}
