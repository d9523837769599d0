/**
 * The decision logic of `st.pydeck_chart` (lib/streamlit/elements/deck_gl_json_chart.py):
 * which spec, tooltip and Mapbox token reach the chart's proto, when selections turn
 * the chart into a widget and in which selection mode, and how the widget's
 * selection state is read back.
 */
module DeckGlJsonChart {
  import opened Base
  import opened PyText

  /** A decoded JSON value (numbers stand for Python ints and floats alike). */
  datatype Json =
    | JNull
    | JBool(b: bool)
    | JNumber(n: int)
    | JString(s: string)
    | JList(items: seq<Json>)
    | JDict(entries: seq<(string, Json)>)

  /** `bool(v)` in Python. */
  predicate Truthy(v: Json) {
    match v
    case JNull => false
    case JBool(b) => b
    case JNumber(n) => n != 0
    case JString(s) => s != ""
    case JList(items) => items != []
    case JDict(entries) => entries != []
  }

  /** `d[key]` over the entries of a dict, `None` when the key is absent. */
  function Lookup(entries: seq<(string, Json)>, key: string): (r: Option<Json>)
    ensures r.None? <==> forall i :: 0 <= i < |entries| ==> entries[i].0 != key
    ensures r.Some? ==> exists i :: 0 <= i < |entries| && entries[i] == (key, r.value)
  {
    if entries == [] then None
    else if entries[0].0 == key then Some(entries[0].1)
    else
      var r := Lookup(entries[1..], key);
      assert r.Some? ==> exists i :: 0 <= i < |entries[1..]| && entries[1..][i] == (key, r.value);
      r
  }

  /** `EMPTY_MAP`: the spec drawn when no deck is passed. */
  const EmptyMap: Json := JDict([
    ("initialViewState", JDict([
      ("latitude", JNumber(0)),
      ("longitude", JNumber(0)),
      ("pitch", JNumber(0)),
      ("zoom", JNumber(1))]))])

  /** The `deck_widget` attribute of a deck; only its `tooltip` is read. */
  datatype DeckWidget = DeckWidget(tooltip: Json)

  /**
   * A `pydeck.Deck`, seen through the attributes the chart reads: `deck_widget`
   * (absent or `None` is `None` here) and `_tooltip` (absent or `None` is `JNull`).
   */
  datatype Deck = Deck(deckWidget: Option<DeckWidget>, tooltip: Json)

  /** The text of a proto string field: `json.dumps(value)` or `deck.to_json()`. */
  datatype JsonText = Dumps(value: Json) | DeckToJson(deck: Deck)

  /** `_get_pydeck_tooltip`: a dict tooltip of the deck widget, else a dict `_tooltip`, else `None`. */
  function PydeckTooltip(deck: Option<Deck>): (r: Option<Json>)
    ensures r.Some? ==> r.value.JDict? && deck.Some?
    ensures (deck.Some? && deck.value.deckWidget.Some? && deck.value.deckWidget.value.tooltip.JDict?)
              ==> r == Some(deck.value.deckWidget.value.tooltip)
    ensures (deck.Some? && !(deck.value.deckWidget.Some? && deck.value.deckWidget.value.tooltip.JDict?))
              ==> r == (if deck.value.tooltip.JDict? then Some(deck.value.tooltip) else None)
  {
    match deck
    case None => None
    case Some(d) =>
      if d.deckWidget.Some? && d.deckWidget.value.tooltip.JDict? then Some(d.deckWidget.value.tooltip)
      else if d.tooltip.JDict? then Some(d.tooltip)
      else None
  }

  /** `PydeckSelectionSerde.deserialize`; `uiValue` is the decoded JSON of the frontend's string. */
  function Deserialize(uiValue: Option<Json>): (state: Json)
    ensures uiValue.None? ==> state.JDict? && |state.entries| == 1 && Lookup(state.entries, "selection") == Some(JNull)
    ensures uiValue.Some? ==> state == uiValue.value
  {
    match uiValue
    case None => JDict([("selection", JNull)])
    case Some(v) => v
  }

  /** What is passed as `on_select`: a JSON-like value such as "rerun", or a callable. */
  datatype OnSelect = OnSelectValue(value: Json) | OnSelectCallback

  predicate IsSelectionActivated(onSelect: OnSelect) {
    onSelect != OnSelectValue(JString("ignore"))
  }

  /** `on_select` is "ignore", "rerun" or a callable. */
  predicate OnSelectSupported(onSelect: OnSelect) {
    || onSelect == OnSelectValue(JString("ignore"))
    || onSelect == OnSelectValue(JString("rerun"))
    || onSelect.OnSelectCallback?
  }

  /** `selection_mode` once selections are activated: "ignore" falls back to "single". */
  function ActiveSelectionMode(selectionMode: string): string {
    if selectionMode == "ignore" then "single" else selectionMode
  }

  /** The proto's `SelectionMode` enum. */
  datatype SelectionMode = Single | Multi

  /**
   * Assigning an upper-cased name to the proto's `selection_mode` enum field: "SINGLE" and
   * "MULTI" name its values, and the protobuf runtime rejects any other label (`None` here).
   */
  function SelectionModeNamed(name: string): Option<SelectionMode> {
    if name == "SINGLE" then Some(Single)
    else if name == "MULTI" then Some(Multi)
    else None
  }

  /** The mode a selecting chart ends up with, for the three declared `selection_mode` values. */
  lemma ProtoSelectionModes(selectionMode: string)
    requires selectionMode in ["ignore", "single", "multi"]
    ensures SelectionModeNamed(Upper(ActiveSelectionMode(selectionMode)))
              == Some(if selectionMode == "multi" then Multi else Single)
  {
    var m := ActiveSelectionMode(selectionMode);
    if selectionMode == "multi" {
      assert m == "multi";
      assert Upper(m) == ['M', 'U', 'L', 'T', 'I'];
    } else {
      assert m == "single";
      assert Upper(m) == ['S', 'I', 'N', 'G', 'L', 'E'];
    }
  }

  /** Every character is a lower-case ASCII letter. */
  predicate IsLowerAscii(s: string) {
    forall i :: 0 <= i < |s| ==> 'a' <= s[i] <= 'z'
  }

  /** `upper()` loses nothing on lower-case ASCII text. */
  lemma UpperLowerInjective(s: string, t: string)
    requires IsLowerAscii(s) && IsLowerAscii(t)
    requires Upper(s) == Upper(t)
    ensures s == t
  {
    assert |s| == |Upper(s)| == |Upper(t)| == |t|;
    forall i | 0 <= i < |s|
      ensures s[i] == t[i]
    {
      assert UpperChar(s[i]) == Upper(s)[i] == Upper(t)[i] == UpperChar(t[i]);
    }
  }

  /**
   * For a lower-case `selection_mode`, a selecting chart gets past the enum assignment
   * exactly when the mode is one of the three declared values; any other one, such as
   * "foo", is rejected there.
   */
  lemma SelectionModeAcceptedExactly(selectionMode: string)
    requires IsLowerAscii(selectionMode)
    ensures (SelectionModeNamed(Upper(ActiveSelectionMode(selectionMode))).Some?
             <==> selectionMode in ["ignore", "single", "multi"])
  {
    var m := ActiveSelectionMode(selectionMode);
    if selectionMode in ["ignore", "single", "multi"] {
      ProtoSelectionModes(selectionMode);
    } else if SelectionModeNamed(Upper(m)).Some? {
      assert m == selectionMode;
      if Upper(m) == "SINGLE" {
        assert Upper("single") == ['S', 'I', 'N', 'G', 'L', 'E'];
        UpperLowerInjective(m, "single");
      } else {
        assert Upper("multi") == ['M', 'U', 'L', 'T', 'I'];
        UpperLowerInjective(m, "multi");
      }
      assert false;
    }
  }

  /** The `DeckGlJsonChart` proto message, field by field; `None` is an unset field. */
  class PydeckProto {
    var json: Option<JsonText>
    var useContainerWidth: bool
    var tooltip: Option<JsonText>
    var mapboxToken: Option<string>
    var selectionMode: Option<SelectionMode>

    constructor ()
      ensures json.None? && !useContainerWidth && tooltip.None? && mapboxToken.None? && selectionMode.None?
    {
      json := None;
      useContainerWidth := false;
      tooltip := None;
      mapboxToken := None;
      selectionMode := None;
    }
  }

  /**
   * How a call of `pydeck_chart` ends: the `StreamlitAPIException` for `on_select`, the
   * protobuf runtime rejecting an unknown `selection_mode` label, a plain chart, or a widget.
   */
  datatype ChartOutcome =
    | StreamlitApiException(onSelect: OnSelect)
    | Enqueued(proto: PydeckProto)
    | UnknownSelectionMode(name: string)
    | WidgetRegistered(proto: PydeckProto, state: Json)

  /**
   * `pydeck_chart`: fills in the proto step by step, rejects an unsupported `on_select`,
   * and registers a selection widget when selections are activated. `mapboxToken` is the
   * `mapbox.token` config option; `uiValue` is what the widget registry holds for the
   * chart (the frontend's JSON, or `None` before any selection).
   */
  method PydeckChart(deck: Option<Deck>, useContainerWidth: bool, selectionMode: string,
                     onSelect: OnSelect, mapboxToken: string, uiValue: Option<Json>)
    returns (outcome: ChartOutcome)
    ensures outcome.StreamlitApiException? <==> !OnSelectSupported(onSelect)
    ensures outcome.UnknownSelectionMode? <==>
      && OnSelectSupported(onSelect) && IsSelectionActivated(onSelect)
      && SelectionModeNamed(Upper(ActiveSelectionMode(selectionMode))).None?
    ensures outcome.UnknownSelectionMode? ==> outcome.name == Upper(ActiveSelectionMode(selectionMode))
    ensures outcome.WidgetRegistered? <==>
      && OnSelectSupported(onSelect) && IsSelectionActivated(onSelect)
      && SelectionModeNamed(Upper(ActiveSelectionMode(selectionMode))).Some?
    ensures (outcome.Enqueued? || outcome.WidgetRegistered?) ==>
      var proto := outcome.proto;
      && fresh(proto)
      && proto.json == Some(if deck.None? then Dumps(EmptyMap) else DeckToJson(deck.value))
      && proto.useContainerWidth == useContainerWidth
      && proto.tooltip == (var t := PydeckTooltip(deck); if t.Some? && Truthy(t.value) then Some(Dumps(t.value)) else None)
      && proto.mapboxToken == (if mapboxToken != "" then Some(mapboxToken) else None)
      && proto.selectionMode == (if outcome.WidgetRegistered? then SelectionModeNamed(Upper(ActiveSelectionMode(selectionMode))) else None)
    ensures outcome.WidgetRegistered? ==> outcome.state == Deserialize(uiValue)
  {
    var proto := new PydeckProto();

    var spec := if deck.None? then Dumps(EmptyMap) else DeckToJson(deck.value);
    proto.json := Some(spec);
    proto.useContainerWidth := useContainerWidth;

    var tooltip := PydeckTooltip(deck);
    if tooltip.Some? && Truthy(tooltip.value) {
      proto.tooltip := Some(Dumps(tooltip.value));
    }

    if mapboxToken != "" {
      proto.mapboxToken := Some(mapboxToken);
    }

    var isSelectionActivated := IsSelectionActivated(onSelect);

    if !OnSelectSupported(onSelect) {
      return StreamlitApiException(onSelect);
    }

    if isSelectionActivated {
      var mode := ActiveSelectionMode(selectionMode);
      var name := Upper(mode);
      var protoMode := SelectionModeNamed(name);
      if protoMode.None? {
        return UnknownSelectionMode(name);
      }
      proto.selectionMode := protoMode;
      var widgetState := Deserialize(uiValue);
      return WidgetRegistered(proto, widgetState);
    }

    return Enqueued(proto);
  }
}
