/**
 The sample installer (sample/js/script.js): one `placement.bind` for the lead
 detail tab issued once `user.current` answers, followed by `installFinish`;
 and the unbind action, which issues one `placement.unbind` per binding that
 `placement.get` reports, echoing that binding's handler.
 */
module Sample {
  import opened Text
  import HandlerUrl
  import opened Rpc

  const LeadTab: string := "CRM_LEAD_DETAIL_TAB"
  const BindTitle: string := "Виджет24"
  const UnbindTitle: string := "Виджет"

  datatype PlacementParams = PlacementParams(placement: string, title: string, handler: string)

  datatype Request = Request(methodName: string, params: PlacementParams)

  /** The handler the sample binds: the page's origin and path (query and
      fragment are not part of them) with a trailing `index.html` rewritten. */
  function SampleHandlerUrl(origin: string, pathname: string): (url: string)
    ensures EndsWith(origin + pathname, HandlerUrl.EntryFile) ==>
              EndsWith(url, HandlerUrl.WidgetFile)
              && url[..|url| - |HandlerUrl.WidgetFile|]
                 == (origin + pathname)[..|origin + pathname| - |HandlerUrl.EntryFile|]
    ensures !EndsWith(origin + pathname, HandlerUrl.EntryFile) ==> url == origin + pathname
  {
    HandlerUrl.ReplaceIndexSuffix(origin + pathname)
  }

  /** The `placement.bind` call of the install flow. */
  function BindRequest(origin: string, pathname: string): (req: Request)
    ensures req.methodName == "placement.bind"
    ensures req.params.placement == "CRM_LEAD_DETAIL_TAB" && req.params.title == "Виджет24"
    ensures req.params.handler == SampleHandlerUrl(origin, pathname)
  {
    Request(BindMethod, PlacementParams(LeadTab, BindTitle, SampleHandlerUrl(origin, pathname)))
  }

  /** The bind request names the lead tab under the title `Виджет24`; its
      handler is the page's origin and path with a trailing `index.html`
      turned into `widget.html`, and a second rewrite would leave it unchanged. */
  lemma BindRequestHandler(origin: string, pathname: string)
    ensures BindRequest(origin, pathname).params.placement == "CRM_LEAD_DETAIL_TAB"
    ensures BindRequest(origin, pathname).params.title == "Виджет24"
    ensures BindRequest(origin, pathname).methodName == "placement.bind"
    ensures var h := BindRequest(origin, pathname).params.handler;
            var page := origin + pathname;
            && (EndsWith(page, HandlerUrl.EntryFile) ==>
                  h == page[..|page| - |HandlerUrl.EntryFile|] + HandlerUrl.WidgetFile)
            && (!EndsWith(page, HandlerUrl.EntryFile) ==> h == page)
            && HandlerUrl.ReplaceIndexSuffix(h) == h
  {
    HandlerUrl.ReplaceIndexSuffixIdempotent(origin + pathname);
  }

  /** A binding as `placement.get` reports it; only `handler` is read. */
  datatype BoundEntry = BoundEntry(placement: string, handler: string, title: string)

  /** The `placement.unbind` call for one reported binding. */
  function UnbindFor(entry: BoundEntry): (req: Request)
    ensures req.params.handler == entry.handler
    ensures req.methodName == "placement.unbind"
    ensures req.params.placement == "CRM_LEAD_DETAIL_TAB" && req.params.title == "Виджет"
  {
    Request(UnbindMethod, PlacementParams(LeadTab, UnbindTitle, entry.handler))
  }

  /** `result.data().forEach(res => BX24.callMethod('placement.unbind', ...))`:
      the requests in the order they are issued. */
  function UnbindRequests(entries: seq<BoundEntry>): (reqs: seq<Request>)
    ensures |reqs| == |entries|
    ensures forall j :: 0 <= j < |entries| ==>
              reqs[j].params.handler == entries[j].handler
              && reqs[j].methodName == UnbindMethod
              && reqs[j].params.placement == LeadTab && reqs[j].params.title == UnbindTitle
    decreases |entries|
  {
    if |entries| == 0 then [] else [UnbindFor(entries[0])] + UnbindRequests(entries[1..])
  }

  function EntryHandlers(entries: seq<BoundEntry>): seq<string> {
    seq(|entries|, j requires 0 <= j < |entries| => entries[j].handler)
  }

  function RequestHandlers(reqs: seq<Request>): seq<string> {
    seq(|reqs|, j requires 0 <= j < |reqs| => reqs[j].params.handler)
  }

  /** The handlers sent are exactly the handlers reported, in order: none is
      dropped, recomputed or reordered. */
  lemma UnbindEchoesHandlers(entries: seq<BoundEntry>)
    ensures RequestHandlers(UnbindRequests(entries)) == EntryHandlers(entries)
  {
  }

  /** Each entry is unbound on its own: the requests for a concatenation of
      reports are the concatenation of the requests. */
  lemma {:induction false} UnbindRequestsAppend(a: seq<BoundEntry>, b: seq<BoundEntry>)
    ensures UnbindRequests(a + b) == UnbindRequests(a) + UnbindRequests(b)
    decreases |a|
  {
    if |a| == 0 {
      assert a + b == b;
    } else {
      assert (a + b)[0] == a[0];
      assert (a + b)[1..] == a[1..] + b;
      UnbindRequestsAppend(a[1..], b);
    }
  }

  /** No entry is filtered: whatever placement a binding reports, the request
      echoing its handler under the lead tab is issued. */
  lemma EveryEntryUnbound(entries: seq<BoundEntry>, j: nat)
    requires j < |entries|
    ensures UnbindFor(entries[j]) in UnbindRequests(entries)
  {
  }

  /** Where the install flow stands: waiting for the SDK's install callback,
      waiting for the `user.current` answer, or done. */
  datatype InstallPhase = AwaitingSdk | AwaitingUser | Finished

  datatype InstallEvent = SdkInstallReady | UserCurrentReply

  datatype SdkCall = UserCurrentCall | BindCall(req: Request) | InstallFinishCall

  /** Position of a phase in the flow. */
  function Rank(phase: InstallPhase): nat {
    match phase
    case AwaitingSdk => 0
    case AwaitingUser => 1
    case Finished => 2
  }

  /** The phase after the callback run by `ev`: the flow never goes back and
      moves at most one step; an event the phase does not wait for (a repeated
      install callback, a second `user.current` answer) changes nothing. */
  function Advance(phase: InstallPhase, ev: InstallEvent): (next: InstallPhase)
    ensures Rank(phase) <= Rank(next) <= Rank(phase) + 1
    ensures next != phase <==>
              (phase == AwaitingSdk && ev == SdkInstallReady)
              || (phase == AwaitingUser && ev == UserCurrentReply)
  {
    match (phase, ev)
    case (AwaitingSdk, SdkInstallReady) => AwaitingUser
    case (AwaitingUser, UserCurrentReply) => Finished
    case _ => phase
  }

  /** The calls the callback run by `ev` issues. The `user.current` answer is
      not inspected: the bind goes out whatever it says. */
  function Issued(phase: InstallPhase, ev: InstallEvent, bind: Request): (calls: seq<SdkCall>)
    ensures IssuedBy(phase, bind) + calls == IssuedBy(Advance(phase, ev), bind)
    ensures calls != [] <==> Advance(phase, ev) != phase
  {
    match (phase, ev)
    case (AwaitingSdk, SdkInstallReady) => [UserCurrentCall]
    case (AwaitingUser, UserCurrentReply) => [BindCall(bind), InstallFinishCall]
    case _ => []
  }

  function PhaseAfter(events: seq<InstallEvent>): (phase: InstallPhase)
    ensures Rank(phase) <= |events|
    ensures |events| > 0 ==> Rank(PhaseAfter(events[..|events| - 1])) <= Rank(phase)
    decreases |events|
  {
    if |events| == 0 then AwaitingSdk
    else Advance(PhaseAfter(events[..|events| - 1]), events[|events| - 1])
  }

  /** The calls issued, in order, as the events arrive. */
  function Trace(events: seq<InstallEvent>, bind: Request): (calls: seq<SdkCall>)
    ensures calls == IssuedBy(PhaseAfter(events), bind)
    decreases |events|
  {
    if |events| == 0 then []
    else
      var pre := events[..|events| - 1];
      Trace(pre, bind) + Issued(PhaseAfter(pre), events[|events| - 1], bind)
  }

  /** The calls a phase has issued so far. */
  function IssuedBy(phase: InstallPhase, bind: Request): seq<SdkCall> {
    match phase
    case AwaitingSdk => []
    case AwaitingUser => [UserCurrentCall]
    case Finished => [UserCurrentCall, BindCall(bind), InstallFinishCall]
  }

  /** The SDK's install callback has run at some point. */
  predicate SdkReadySeen(events: seq<InstallEvent>) {
    exists a :: 0 <= a < |events| && events[a] == SdkInstallReady
  }

  /** `user.current` answered after the install callback ran. */
  predicate UserAnsweredAfterReady(events: seq<InstallEvent>) {
    exists a, b :: 0 <= a < b < |events| && events[a] == SdkInstallReady && events[b] == UserCurrentReply
  }

  lemma {:induction false} PhaseLeavesSdkWait(events: seq<InstallEvent>)
    ensures PhaseAfter(events) != AwaitingSdk <==> SdkReadySeen(events)
    decreases |events|
  {
    if |events| > 0 {
      var pre := events[..|events| - 1];
      PhaseLeavesSdkWait(pre);
      if SdkReadySeen(pre) {
        var a :| 0 <= a < |pre| && pre[a] == SdkInstallReady;
        assert events[a] == SdkInstallReady;
      }
      if SdkReadySeen(events) {
        var a :| 0 <= a < |events| && events[a] == SdkInstallReady;
        if a < |pre| {
          assert pre[a] == SdkInstallReady;
        }
      }
    }
  }

  /** If the flow has finished, `user.current` answered after the install
      callback ran. */
  lemma {:induction false} FinishedHasAnswer(events: seq<InstallEvent>)
    requires PhaseAfter(events) == Finished
    ensures UserAnsweredAfterReady(events)
    decreases |events|
  {
    var pre := events[..|events| - 1];
    var last := |events| - 1;
    if PhaseAfter(pre) == Finished {
      FinishedHasAnswer(pre);
      var a, b :| 0 <= a < b < |pre| && pre[a] == SdkInstallReady && pre[b] == UserCurrentReply;
      assert events[a] == SdkInstallReady && events[b] == UserCurrentReply;
    } else {
      assert PhaseAfter(pre) == AwaitingUser && events[last] == UserCurrentReply;
      PhaseLeavesSdkWait(pre);
      var a :| 0 <= a < |pre| && pre[a] == SdkInstallReady;
      assert events[a] == SdkInstallReady;
    }
  }

  /** Once `user.current` has answered after the install callback, the flow
      has finished. */
  lemma {:induction false} AnswerFinishes(events: seq<InstallEvent>)
    requires UserAnsweredAfterReady(events)
    ensures PhaseAfter(events) == Finished
    decreases |events|
  {
    var pre := events[..|events| - 1];
    var last := |events| - 1;
    var a, b :| 0 <= a < b < |events| && events[a] == SdkInstallReady && events[b] == UserCurrentReply;
    assert pre[a] == SdkInstallReady;
    if b < last {
      assert pre[b] == UserCurrentReply;
      AnswerFinishes(pre);
    } else {
      assert SdkReadySeen(pre);
      PhaseLeavesSdkWait(pre);
    }
  }

  lemma PhaseFinished(events: seq<InstallEvent>)
    ensures PhaseAfter(events) == Finished <==> UserAnsweredAfterReady(events)
  {
    if PhaseAfter(events) == Finished {
      FinishedHasAnswer(events);
    }
    if UserAnsweredAfterReady(events) {
      AnswerFinishes(events);
    }
  }

  /** The install flow issues `user.current` first; the bind and then
      `installFinish` go out only after its answer, and only once. */
  lemma InstallOrder(events: seq<InstallEvent>, origin: string, pathname: string)
    ensures var t := Trace(events, BindRequest(origin, pathname));
            (UserAnsweredAfterReady(events) ==>
               t == [UserCurrentCall, BindCall(BindRequest(origin, pathname)), InstallFinishCall])
            && (!UserAnsweredAfterReady(events) ==> forall c :: c in t ==> c == UserCurrentCall)
            && (|t| > 0 <==> SdkReadySeen(events))
  {
    PhaseFinished(events);
    PhaseLeavesSdkWait(events);
  }
}
