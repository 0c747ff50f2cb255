/**
 The production installer (frontend/src/install.js): the fixed list of
 placements, and the batch of `placement.bind` commands built from it, one per
 placement, keyed `placement_bind_<index>`.
 */
module Batch {
  import opened Text
  import HandlerUrl
  import opened Rpc

  /** A placement to register: the host UI location and the tab title. */
  datatype PlacementSpec = PlacementSpec(placement: string, title: string)

  datatype BindParams = BindParams(placement: string, handler: string, title: string, description: string)

  datatype BindCommand = BindCommand(key: string, methodName: string, params: BindParams)

  const ReportTitle: string := "Проблемные сущности"

  const Placements: seq<PlacementSpec> := [
    PlacementSpec("CRM_DEAL_DETAIL_TAB", ReportTitle),
    PlacementSpec("CRM_COMPANY_DETAIL_TAB", ReportTitle),
    PlacementSpec("CRM_CONTACT_DETAIL_TAB", ReportTitle)
  ]

  const Description: string := "Отчет по проблемным сущностям"
  const KeyPrefix: string := "placement_bind_"

  /** The batch key of the command built from the spec at `index`. */
  function BindKey(index: nat): (key: string)
    ensures |key| > |KeyPrefix| && key[..|KeyPrefix|] == KeyPrefix
  {
    KeyPrefix + Decimal(index)
  }

  /** Reads the index back out of a batch key; `None` for any string that
      `BindKey` cannot produce. */
  function KeyIndex(key: string): Option<nat> {
    if |KeyPrefix| <= |key| && key[..|KeyPrefix|] == KeyPrefix
    then ParseDecimal(key[|KeyPrefix|..])
    else None
  }

  lemma KeyRoundTrip(index: nat)
    ensures KeyIndex(BindKey(index)) == Some(index)
  {
    assert BindKey(index)[|KeyPrefix|..] == Decimal(index);
    DecimalRoundTrip(index);
  }

  /** Every key `KeyIndex` accepts is the key of the index it returns. */
  lemma KeyIndexSound(key: string, index: nat)
    requires KeyIndex(key) == Some(index)
    ensures BindKey(index) == key
  {
    ParseDecimalRoundTrip(key[|KeyPrefix|..], index);
    assert key == KeyPrefix + key[|KeyPrefix|..];
  }

  /** Distinct indices give distinct keys, so no result slot is overwritten. */
  lemma BindKeyInjective(a: nat, b: nat)
    requires a != b
    ensures BindKey(a) != BindKey(b)
  {
    KeyRoundTrip(a);
    KeyRoundTrip(b);
  }

  /** `PLACEMENTS.map((p, index) => ({ key, method, params }))`. */
  function BuildBatch(specs: seq<PlacementSpec>, handler: string): (cmds: seq<BindCommand>)
    ensures |cmds| == |specs|
    ensures forall i :: 0 <= i < |cmds| ==> KeyIndex(cmds[i].key) == Some(i)
    ensures forall i :: 0 <= i < |cmds| ==>
              cmds[i].params.placement == specs[i].placement && cmds[i].params.title == specs[i].title
    ensures forall i :: 0 <= i < |cmds| ==>
              cmds[i].methodName == BindMethod && cmds[i].params.handler == handler
              && cmds[i].params.description == Description
  {
    var cmds := seq(|specs|, i requires 0 <= i < |specs| =>
                      BindCommand(BindKey(i), BindMethod,
                                  BindParams(specs[i].placement, handler, specs[i].title, Description)));
    assert forall i :: 0 <= i < |cmds| ==> KeyIndex(cmds[i].key) == Some(i) by {
      forall i | 0 <= i < |cmds| { KeyRoundTrip(i); }
    }
    cmds
  }

  predicate KeysDistinct(cmds: seq<BindCommand>) {
    forall i, j :: 0 <= i < j < |cmds| ==> cmds[i].key != cmds[j].key
  }

  /** The keys of a batch are pairwise distinct. */
  lemma BatchKeysDistinct(specs: seq<PlacementSpec>, handler: string)
    ensures KeysDistinct(BuildBatch(specs, handler))
  {
  }

  /** Correlates a batch key back to the spec it was built from, as a result
      slot is correlated to its input: only through the key. */
  function SpecForKey(specs: seq<PlacementSpec>, key: string): (r: Option<PlacementSpec>)
    ensures r.Some? ==> exists i :: 0 <= i < |specs| && key == BindKey(i) && r.value == specs[i]
    ensures r.None? ==> forall i :: 0 <= i < |specs| ==> key != BindKey(i)
  {
    match KeyIndex(key)
    case Some(i) =>
      KeyIndexSound(key, i);
      if i < |specs| then Some(specs[i])
      else
        assert forall j :: 0 <= j < |specs| ==> KeyIndex(BindKey(j)) == Some(j) by {
          forall j | 0 <= j < |specs| { KeyRoundTrip(j); }
        }
        None
    case None =>
      assert forall j :: 0 <= j < |specs| ==> KeyIndex(BindKey(j)) == Some(j) by {
        forall j | 0 <= j < |specs| { KeyRoundTrip(j); }
      }
      None
  }

  /** Each command's key leads back to exactly the spec the command copies. */
  lemma BatchCorrelatesByKey(specs: seq<PlacementSpec>, handler: string, i: nat)
    requires i < |specs|
    ensures SpecForKey(specs, BuildBatch(specs, handler)[i].key) == Some(specs[i])
  {
  }

  predicate PlacementsDistinct(specs: seq<PlacementSpec>) {
    forall i, j :: 0 <= i < j < |specs| ==> specs[i].placement != specs[j].placement
  }

  /** The fixed list names three different placements. */
  lemma FixedPlacementsDistinct()
    ensures |Placements| == 3
    ensures PlacementsDistinct(Placements)
  {
  }

  /** The installer's whole batch for the page URL `href`. */
  function InstallBatch(href: string): (cmds: seq<BindCommand>)
    ensures |cmds| == |Placements|
    ensures forall i :: 0 <= i < |cmds| ==>
              cmds[i].params.placement == Placements[i].placement
              && cmds[i].params.handler == HandlerUrl.DeriveWidgetUrl(href)
              && KeyIndex(cmds[i].key) == Some(i)
  {
    BuildBatch(Placements, HandlerUrl.DeriveWidgetUrl(href))
  }

  /** The installer binds three distinct placements, all to the one derived
      handler URL, under the keys `placement_bind_0` to `placement_bind_2`. */
  lemma InstallBatchShape(href: string)
    ensures |InstallBatch(href)| == 3
    ensures KeysDistinct(InstallBatch(href))
    ensures forall i :: 0 <= i < 3 ==>
              InstallBatch(href)[i].key == BindKey(i)
              && InstallBatch(href)[i].params.handler == HandlerUrl.DeriveWidgetUrl(href)
              && InstallBatch(href)[i].params.placement == Placements[i].placement
  {
    BatchKeysDistinct(Placements, HandlerUrl.DeriveWidgetUrl(href));
    var cmds := InstallBatch(href);
    forall i | 0 <= i < 3
      ensures cmds[i].key == BindKey(i)
    {
      KeyIndexSound(cmds[i].key, i);
    }
  }

  /** One deal-tab spec installed from `/app/index.html?x=1` gives a single
      command keyed `placement_bind_0` whose handler is `/app/widget.html`. */
  lemma SingleSpecScenario(href: string)
    requires href == "/app/" + HandlerUrl.EntryFile + "?x=1"
    ensures var cmds := BuildBatch([PlacementSpec("CRM_DEAL_DETAIL_TAB", "X")], HandlerUrl.DeriveWidgetUrl(href));
            |cmds| == 1 && cmds[0].key == "placement_bind_0"
            && cmds[0].params.handler == "/app/" + HandlerUrl.WidgetFile
            && cmds[0].params.placement == "CRM_DEAL_DETAIL_TAB"
  {
    HandlerUrl.DeriveDropsQuery(href);
    var cmds := BuildBatch([PlacementSpec("CRM_DEAL_DETAIL_TAB", "X")], HandlerUrl.DeriveWidgetUrl(href));
    KeyIndexSound(cmds[0].key, 0);
  }

  /** Re-running the installer on its own handler URL binds the same commands. */
  lemma InstallOnHandlerUrlIsStable(href: string)
    ensures InstallBatch(HandlerUrl.DeriveWidgetUrl(href)) == InstallBatch(href)
  {
    HandlerUrl.DeriveIdempotent(href);
  }
}
