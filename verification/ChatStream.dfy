/**
 The incremental chat stream parser (loadtest/orbyte_client/stream_parser.py). A line arrives already
 decoded; only the parts the parser looks at are kept.
 */
module ChatStream {
  import opened Base

  datatype Milestone = FirstPacket | FirstSearchDoc | FirstAnswerToken | FirstDrPlan | FirstResearchAgent

  /** `str` of a truthy JSON value is never empty. */
  type ErrorText = s: string | s != "" witness "e"

  datatype PacketType =
    | ErrorPacket | Heartbeat | MessageStart | MessageDelta | SearchDocuments | PlanStart | AgentStart | Stop | Other

  /** `content` and `documents` count what `x or ""` and `x or []` leave. */
  datatype Obj = Obj(packetType: PacketType, error: Option<ErrorText>, content: nat, documents: nat)

  datatype Line =
    | Empty
    | NotJson
    | NotAnObject
    | Packet(reservedId: Option<int>, error: Option<ErrorText>, obj: Option<Obj>)

  datatype StreamSummary = StreamSummary(
    packets: nat, heartbeats: nat, answerChars: nat, searchDocCount: nat,
    sawMessageStart: bool, sawStop: bool, error: Option<string>,
    milestonesHit: set<Milestone>, reservedId: Option<int>)

  const NEW_SUMMARY := StreamSummary(0, 0, 0, 0, false, false, None, {}, None)
  const UNPARSEABLE := "unparseable stream line"
  const ERROR_PACKET := "streaming error packet"

  // ---- one line ---------------------------------------------------------------------------

  function Mark(s: StreamSummary, m: Milestone): StreamSummary {
    s.(milestonesHit := s.milestonesHit + {m})
  }

  function Dispatch(s: StreamSummary, obj: Obj): StreamSummary {
    if obj.packetType.ErrorPacket? || obj.error.Some? then
      s.(error := Some(if obj.error.Some? then obj.error.value else ERROR_PACKET))
    else match obj.packetType
      case Heartbeat => s.(heartbeats := s.heartbeats + 1)
      case MessageStart =>
        var t := s.(sawMessageStart := true, answerChars := s.answerChars + obj.content);
        if obj.content > 0 then Mark(t, FirstAnswerToken) else t
      case MessageDelta =>
        var t := s.(answerChars := s.answerChars + obj.content);
        if obj.content > 0 then Mark(t, FirstAnswerToken) else t
      case SearchDocuments =>
        var t := s.(searchDocCount := s.searchDocCount + obj.documents);
        if obj.documents > 0 then Mark(t, FirstSearchDoc) else t
      case PlanStart => Mark(s, FirstDrPlan)
      case AgentStart => Mark(s, FirstResearchAgent)
      case Stop => s.(sawStop := true)
      case _ => s
  }

  /** The summary after one more line. */
  function Fed(s: StreamSummary, line: Line): StreamSummary {
    if line.Empty? then s
    else
      var t := Mark(s.(packets := s.packets + 1), FirstPacket);
      match line
      case NotJson => t.(error := Some(UNPARSEABLE))
      case Packet(reservedId, error, obj) =>
        var u := if reservedId.Some? then t.(reservedId := reservedId) else t;
        if error.Some? then u.(error := Some(error.value))
        else if obj.None? then u
        else Dispatch(u, obj.value)
      case _ => t
  }

  class ChatStreamAnalyzer {
    var summary: StreamSummary

    constructor ()
      ensures summary == NEW_SUMMARY
    {
      summary := NEW_SUMMARY;
    }

    /** The milestones `hit` by this line are exactly the ones new to the summary, each once. */
    method Feed(line: Line) returns (hit: seq<Milestone>)
      modifies this
      ensures summary == Fed(old(summary), line)
      ensures Distinct(hit)
      ensures forall m :: m in hit <==> m in summary.milestonesHit && m !in old(summary.milestonesHit)
    {
      hit := [];
      if line.Empty? {
        return;
      }
      summary := summary.(packets := summary.packets + 1);
      hit := MarkMilestone(FirstPacket, hit);
      match line {
        case NotJson =>
          summary := summary.(error := Some(UNPARSEABLE));
        case Packet(reservedId, error, obj) =>
          if reservedId.Some? {
            summary := summary.(reservedId := reservedId);
          }
          if error.Some? {
            summary := summary.(error := Some(error.value));
          } else if obj.Some? {
            hit := DispatchPacket(obj.value, hit);
          }
        case _ =>
      }
    }

    method MarkMilestone(m: Milestone, hit: seq<Milestone>) returns (hit': seq<Milestone>)
      modifies this
      ensures summary == Mark(old(summary), m)
      ensures hit' == if m in old(summary.milestonesHit) then hit else hit + [m]
    {
      hit' := hit;
      if m !in summary.milestonesHit {
        summary := summary.(milestonesHit := summary.milestonesHit + {m});
        hit' := hit + [m];
      }
      assert summary.milestonesHit == old(summary.milestonesHit) + {m};
    }

    method DispatchPacket(obj: Obj, hit: seq<Milestone>) returns (hit': seq<Milestone>)
      modifies this
      ensures summary == Dispatch(old(summary), obj)
      ensures hit' == hit || exists m :: m !in old(summary.milestonesHit) && m in summary.milestonesHit && hit' == hit + [m]
      ensures hit' == hit ==> summary.milestonesHit == old(summary.milestonesHit)
    {
      hit' := hit;
      if obj.packetType.ErrorPacket? || obj.error.Some? {
        summary := summary.(error := Some(if obj.error.Some? then obj.error.value else ERROR_PACKET));
        return;
      }
      match obj.packetType {
        case Heartbeat => summary := summary.(heartbeats := summary.heartbeats + 1);
        case MessageStart =>
          summary := summary.(sawMessageStart := true, answerChars := summary.answerChars + obj.content);
          if obj.content > 0 {
            hit' := MarkMilestone(FirstAnswerToken, hit);
          }
        case MessageDelta =>
          summary := summary.(answerChars := summary.answerChars + obj.content);
          if obj.content > 0 {
            hit' := MarkMilestone(FirstAnswerToken, hit);
          }
        case SearchDocuments =>
          summary := summary.(searchDocCount := summary.searchDocCount + obj.documents);
          if obj.documents > 0 {
            hit' := MarkMilestone(FirstSearchDoc, hit);
          }
        case PlanStart => hit' := MarkMilestone(FirstDrPlan, hit);
        case AgentStart => hit' := MarkMilestone(FirstResearchAgent, hit);
        case Stop => summary := summary.(sawStop := true);
        case _ =>
      }
    }
  }

  // ---- whole streams ----------------------------------------------------------------------------

  function FedAll(lines: seq<Line>): StreamSummary {
    if lines == [] then NEW_SUMMARY else Fed(FedAll(lines[..|lines| - 1]), lines[|lines| - 1])
  }

  lemma FedKeepsMilestones(s: StreamSummary, line: Line)
    ensures s.milestonesHit <= Fed(s, line).milestonesHit
  {
  }

  /** `feed` over a whole stream: the milestones returned by all calls together. */
  method FeedAll(lines: seq<Line>) returns (analyzer: ChatStreamAnalyzer, hits: seq<Milestone>)
    ensures fresh(analyzer) && analyzer.summary == FedAll(lines)
    ensures Distinct(hits)
    ensures forall m :: m in hits <==> m in FedAll(lines).milestonesHit
  {
    hide Fed;
    analyzer := new ChatStreamAnalyzer();
    hits := [];
    for i := 0 to |lines|
      invariant fresh(analyzer) && analyzer.summary == FedAll(lines[..i])
      invariant Distinct(hits)
      invariant forall m :: m in hits <==> m in analyzer.summary.milestonesHit
    {
      ghost var before := hits;
      FedKeepsMilestones(analyzer.summary, lines[i]);
      var hit := analyzer.Feed(lines[i]);
      hits := hits + hit;
      assert lines[..i + 1][..i] == lines[..i];
      assert forall j :: 0 <= j < |before| ==> before[j] in before;
      assert forall j :: 0 <= j < |hit| ==> hit[j] in hit;
    }
    assert lines[..|lines|] == lines;
  }

  predicate IsErrorLine(line: Line) {
    || line.NotJson?
    || (line.Packet? && (line.error.Some?
                         || (line.obj.Some? && IsErrorObj(line.obj.value))))
  }

  /** The packet a line dispatches on. */
  function Dispatched(line: Line): Option<Obj> {
    if line.Packet? && !IsErrorLine(line) then line.obj else None
  }

  predicate HasAnswerText(line: Line) {
    var o := Dispatched(line);
    o.Some? && IsText(o.value.packetType) && o.value.content > 0
  }

  predicate HasDocuments(line: Line) {
    var o := Dispatched(line);
    o.Some? && o.value.packetType.SearchDocuments? && o.value.documents > 0
  }

  predicate IsKind(line: Line, t: PacketType) {
    var o := Dispatched(line);
    o.Some? && o.value.packetType == t
  }

  predicate IsErrorObj(obj: Obj) {
    obj.packetType.ErrorPacket? || obj.error.Some?
  }

  predicate IsText(t: PacketType) {
    t.MessageStart? || t.MessageDelta?
  }

  lemma DispatchMeaning(s: StreamSummary, obj: Obj)
    ensures var t, k, ok := Dispatch(s, obj), obj.packetType, !IsErrorObj(obj);
            && (t.error.Some? <==> s.error.Some? || !ok)
            && (s.error != Some("") ==> t.error != Some(""))
            && t.answerChars == s.answerChars + (if ok && IsText(k) then obj.content else 0)
            && t.searchDocCount == s.searchDocCount + (if ok && k.SearchDocuments? then obj.documents else 0)
            && (t.sawMessageStart <==> s.sawMessageStart || (ok && k.MessageStart?))
            && (t.sawStop <==> s.sawStop || (ok && k.Stop?))
            && t.packets == s.packets
            && t.milestonesHit == s.milestonesHit
                 + (if ok && IsText(k) && obj.content > 0 then {FirstAnswerToken} else {})
                 + (if ok && k.SearchDocuments? && obj.documents > 0 then {FirstSearchDoc} else {})
                 + (if ok && k.PlanStart? then {FirstDrPlan} else {})
                 + (if ok && k.AgentStart? then {FirstResearchAgent} else {})
  {
  }

  /** What one line adds to each field. */
  lemma FedMeaning(s: StreamSummary, line: Line)
    ensures var t := Fed(s, line);
            && (t.error.Some? <==> s.error.Some? || IsErrorLine(line))
            && (s.error != Some("") ==> t.error != Some(""))
            && (t.answerChars > 0 <==> s.answerChars > 0 || HasAnswerText(line))
            && (t.searchDocCount > 0 <==> s.searchDocCount > 0 || HasDocuments(line))
            && (t.sawMessageStart <==> s.sawMessageStart || IsKind(line, MessageStart))
            && (t.sawStop <==> s.sawStop || IsKind(line, Stop))
  {
    hide Dispatch;
    if line.Packet? && line.error.None? && line.obj.Some? {
      var t := Mark(s.(packets := s.packets + 1), FirstPacket);
      var u := if line.reservedId.Some? then t.(reservedId := line.reservedId) else t;
      assert Fed(s, line) == Dispatch(u, line.obj.value);
      DispatchMeaning(u, line.obj.value);
    }
  }

  ghost predicate AnyLine(lines: seq<Line>, p: Line -> bool) {
    exists i :: 0 <= i < |lines| && p(lines[i])
  }

  /** Every summary field says something about the lines seen, whatever their order. */
  lemma {:induction false} SummaryMeaning(lines: seq<Line>)
    ensures var s := FedAll(lines);
            && (s.error.Some? <==> AnyLine(lines, IsErrorLine))
            && s.error != Some("")
            && (s.answerChars > 0 <==> AnyLine(lines, HasAnswerText))
            && (s.searchDocCount > 0 <==> AnyLine(lines, HasDocuments))
            && (s.sawMessageStart <==> AnyLine(lines, (l: Line) => IsKind(l, MessageStart)))
            && (s.sawStop <==> AnyLine(lines, (l: Line) => IsKind(l, Stop)))
  {
    hide Fed, HasAnswerText, HasDocuments, IsErrorLine, IsKind;
    if lines != [] {
      var init, last := lines[..|lines| - 1], lines[|lines| - 1];
      assert lines == init + [last];
      SummaryMeaning(init);
      FedMeaning(FedAll(init), last);
      Extend(init, last, IsErrorLine);
      Extend(init, last, HasAnswerText);
      Extend(init, last, HasDocuments);
      Extend(init, last, (l: Line) => IsKind(l, MessageStart));
      Extend(init, last, (l: Line) => IsKind(l, Stop));
    }
  }

  lemma Extend(init: seq<Line>, last: Line, p: Line -> bool)
    ensures AnyLine(init + [last], p) <==> AnyLine(init, p) || p(last)
  {
    var lines := init + [last];
    if i :| 0 <= i < |init| && p(init[i]) {
      assert lines[i] == init[i];
    }
    if p(last) {
      assert lines[|init|] == last;
    }
    if i :| 0 <= i < |lines| && p(lines[i]) {
      assert i < |init| ==> p(init[i]);
    }
  }

  // ---- counts, and what came last -------------------------------------------------------------------

  function Total(lines: seq<Line>, weight: Line -> nat): nat {
    if lines == [] then 0 else Total(lines[..|lines| - 1], weight) + weight(lines[|lines| - 1])
  }

  function TextLength(line: Line): nat {
    var o := Dispatched(line);
    if o.Some? && IsText(o.value.packetType) then o.value.content else 0
  }

  function DocumentCount(line: Line): nat {
    var o := Dispatched(line);
    if o.Some? && o.value.packetType.SearchDocuments? then o.value.documents else 0
  }

  function OneIf(b: bool): nat {
    if b then 1 else 0
  }

  lemma DispatchCounts(s: StreamSummary, obj: Obj)
    ensures var t := Dispatch(s, obj);
            && t.heartbeats == s.heartbeats + OneIf(!IsErrorObj(obj) && obj.packetType.Heartbeat?)
            && t.reservedId == s.reservedId
            && t.error == if IsErrorObj(obj) then Some(if obj.error.Some? then obj.error.value else ERROR_PACKET) else s.error
  {
  }

  /** What one line adds, to the last byte. */
  lemma FedCounts(s: StreamSummary, line: Line)
    ensures var t := Fed(s, line);
            && t.packets == s.packets + OneIf(!line.Empty?)
            && t.heartbeats == s.heartbeats + OneIf(IsKind(line, Heartbeat))
            && t.answerChars == s.answerChars + TextLength(line)
            && t.searchDocCount == s.searchDocCount + DocumentCount(line)
            && (FirstDrPlan in t.milestonesHit <==> FirstDrPlan in s.milestonesHit || IsKind(line, PlanStart))
            && (FirstResearchAgent in t.milestonesHit <==>
                  FirstResearchAgent in s.milestonesHit || IsKind(line, AgentStart))
            && t.reservedId == (if Reserves(line) then line.reservedId else s.reservedId)
            && t.error == (if IsErrorLine(line) then Some(ErrorOf(line)) else s.error)
  {
    hide Dispatch;
    if line.Packet? && line.error.None? && line.obj.Some? {
      var t := Mark(s.(packets := s.packets + 1), FirstPacket);
      var u := if line.reservedId.Some? then t.(reservedId := line.reservedId) else t;
      assert Fed(s, line) == Dispatch(u, line.obj.value);
      DispatchMeaning(u, line.obj.value);
      DispatchCounts(u, line.obj.value);
    }
  }

  /** The counts are those of the lines seen: of all that are not empty, and of what the others carry. */
  lemma {:induction false} CountsMeaning(lines: seq<Line>)
    ensures var s := FedAll(lines);
            && s.packets == Total(lines, (l: Line) => OneIf(!l.Empty?))
            && s.heartbeats == Total(lines, (l: Line) => OneIf(IsKind(l, Heartbeat)))
            && s.answerChars == Total(lines, TextLength) && s.searchDocCount == Total(lines, DocumentCount)
            && (FirstDrPlan in s.milestonesHit <==> AnyLine(lines, (l: Line) => IsKind(l, PlanStart)))
            && (FirstResearchAgent in s.milestonesHit <==> AnyLine(lines, (l: Line) => IsKind(l, AgentStart)))
  {
    hide Fed, IsKind, TextLength, DocumentCount;
    if lines != [] {
      var init, last := lines[..|lines| - 1], lines[|lines| - 1];
      assert lines == init + [last];
      CountsMeaning(init);
      FedCounts(FedAll(init), last);
      Extend(init, last, (l: Line) => IsKind(l, PlanStart));
      Extend(init, last, (l: Line) => IsKind(l, AgentStart));
    }
  }

  predicate Reserves(line: Line) {
    line.Packet? && line.reservedId.Some?
  }

  /** The text an error line leaves. */
  function ErrorOf(line: Line): string
    requires IsErrorLine(line)
  {
    match line
    case NotJson => "unparseable stream line"
    case Packet(_, error, obj) =>
      if error.Some? then error.value else if obj.value.error.Some? then obj.value.error.value else "streaming error packet"
  }

  /** Position `i` holds the last line that satisfies `p`. */
  ghost predicate IsLast(lines: seq<Line>, p: Line -> bool, i: int) {
    0 <= i < |lines| && p(lines[i]) && forall j :: i < j < |lines| ==> !p(lines[j])
  }

  /** The reserved id and the error kept are the last ones. */
  lemma {:induction false} LastOnesKept(lines: seq<Line>)
    ensures var s := FedAll(lines);
            && (s.reservedId.None? <==> !AnyLine(lines, Reserves))
            && (forall i :: IsLast(lines, Reserves, i) ==> s.reservedId == lines[i].reservedId)
            && (s.error.None? <==> !AnyLine(lines, IsErrorLine))
            && (forall i :: IsLast(lines, IsErrorLine, i) ==> s.error == Some(ErrorOf(lines[i])))
  {
    hide Fed, IsErrorLine, ErrorOf;
    if lines != [] {
      var init, last := lines[..|lines| - 1], lines[|lines| - 1];
      assert lines == init + [last];
      LastOnesKept(init);
      FedCounts(FedAll(init), last);
      Extend(init, last, Reserves);
      Extend(init, last, IsErrorLine);
      LastInFront(init, last, Reserves);
      LastInFront(init, last, IsErrorLine);
      assert forall i :: IsLast(init, Reserves, i) ==> lines[i] == init[i];
      assert forall i :: IsLast(init, IsErrorLine, i) ==> lines[i] == init[i];
    }
  }

  lemma LastInFront(init: seq<Line>, last: Line, p: Line -> bool)
    ensures forall i :: IsLast(init + [last], p, i) <==>
              if p(last) then i == |init| else IsLast(init, p, i)
  {
    var lines := init + [last];
    assert lines[|init|] == last && forall j :: 0 <= j < |init| ==> lines[j] == init[j];
  }

  ghost predicate MilestonesAgree(s: StreamSummary) {
    && (FirstPacket in s.milestonesHit <==> s.packets > 0)
    && (FirstAnswerToken in s.milestonesHit <==> s.answerChars > 0)
    && (FirstSearchDoc in s.milestonesHit <==> s.searchDocCount > 0)
  }

  lemma FedKeepsAgreement(s: StreamSummary, line: Line)
    requires MilestonesAgree(s)
    ensures MilestonesAgree(Fed(s, line))
  {
    hide Dispatch;
    if line.Packet? && line.error.None? && line.obj.Some? {
      var t := Mark(s.(packets := s.packets + 1), FirstPacket);
      var u := if line.reservedId.Some? then t.(reservedId := line.reservedId) else t;
      assert Fed(s, line) == Dispatch(u, line.obj.value);
      DispatchMeaning(u, line.obj.value);
    }
  }

  /** The latency milestones fire exactly when the counted thing has been seen. */
  lemma {:induction false} MilestonesMatchCounts(lines: seq<Line>)
    ensures MilestonesAgree(FedAll(lines))
  {
    hide Fed;
    if lines != [] {
      MilestonesMatchCounts(lines[..|lines| - 1]);
      FedKeepsAgreement(FedAll(lines[..|lines| - 1]), lines[|lines| - 1]);
    }
  }

  /** A reserved message id comes from some line of the stream. */
  lemma {:induction false} ReservedFromStream(lines: seq<Line>)
    ensures FedAll(lines).reservedId.Some? ==>
              exists i :: 0 <= i < |lines| && lines[i].Packet? && lines[i].reservedId == FedAll(lines).reservedId
  {
    if lines != [] {
      var init, last := lines[..|lines| - 1], lines[|lines| - 1];
      ReservedFromStream(init);
      if last.Packet? && last.reservedId.Some? {
        assert lines[|lines| - 1].reservedId == FedAll(lines).reservedId;
      } else if FedAll(lines).reservedId.Some? {
        var i :| 0 <= i < |init| && init[i].Packet? && init[i].reservedId == FedAll(init).reservedId;
        assert lines[i] == init[i];
      }
    }
  }

  /** Once an error is recorded it is never cleared, though a later one may replace it. */
  lemma {:induction false} ErrorsStick(lines: seq<Line>, more: seq<Line>)
    requires FedAll(lines).error.Some?
    ensures FedAll(lines + more).error.Some?
  {
    if more == [] {
      assert lines + more == lines;
    } else {
      ErrorsStick(lines, more[..|more| - 1]);
      assert (lines + more)[..|lines + more| - 1] == lines + more[..|more| - 1];
    }
  }

  // ---- the verdict --------------------------------------------------------------------------------

  predicate CompletedOk(s: StreamSummary) {
    s.error.None? && s.sawMessageStart && s.answerChars > 0 && s.sawStop
  }

  datatype Reason = Reported(error: string) | NoAnswer | Truncated | Unknown

  function FailureReason(s: StreamSummary): Reason {
    if s.error.Some? && s.error.value != "" then Reported(s.error.value)
    else if !s.sawMessageStart || s.answerChars == 0 then NoAnswer
    else if !s.sawStop then Truncated
    else Unknown
  }

  /** A turn counts as complete exactly if no line was an error and start, text and stop all arrived. */
  lemma CompletedMeaning(lines: seq<Line>)
    ensures CompletedOk(FedAll(lines)) <==>
              && !AnyLine(lines, IsErrorLine)
              && AnyLine(lines, (l: Line) => IsKind(l, MessageStart))
              && AnyLine(lines, HasAnswerText)
              && AnyLine(lines, (l: Line) => IsKind(l, Stop))
  {
    SummaryMeaning(lines);
  }

  /** The reason given: the error if there was one, then a missing answer, then a missing stop. */
  lemma ReasonMeaning(lines: seq<Line>)
    ensures var answered := AnyLine(lines, (l: Line) => IsKind(l, MessageStart)) && AnyLine(lines, HasAnswerText);
            var stopped := AnyLine(lines, (l: Line) => IsKind(l, Stop));
            match FailureReason(FedAll(lines))
            case Reported(e) => AnyLine(lines, IsErrorLine) && FedAll(lines).error == Some(e)
            case NoAnswer => !AnyLine(lines, IsErrorLine) && !answered
            case Truncated => !AnyLine(lines, IsErrorLine) && answered && !stopped
            case Unknown => !AnyLine(lines, IsErrorLine) && answered && stopped
  {
    SummaryMeaning(lines);
  }

  /** "unknown failure" is given exactly for streams that did not fail. */
  lemma UnknownIffCompleted(lines: seq<Line>)
    ensures FailureReason(FedAll(lines)) == Unknown <==> CompletedOk(FedAll(lines))
  {
    SummaryMeaning(lines);
  }
}
