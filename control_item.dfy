/**
 * The property panel's container: which track item the panel shows for the
 * current selection, and which editor it renders for that item's type.
 */
module ControlItem {
  import opened Wrappers
  import opened Store

  /**
   * `ITrackItemAndDetails`: the spread of `trackItemsMap[id]` (absent when the
   * map has no entry for the id) with its `details` replaced.
   */
  datatype PanelItem = PanelItem(item: Option<TrackItem>, details: Details)

  /** The editors the panel can render. */
  datatype Editor =
    | NoItemSelected
    | BasicText
    | BasicCaption
    | BasicImage
    | BasicVideo
    | BasicAudio
    | Nothing

  /** The item types that have an editor. */
  const EditorKinds: set<string> := {"text", "caption", "image", "video", "audio"}

  /** The panel item for a single selected id that has a details entry. */
  function PanelItemFor(id: string, trackItemsMap: map<string, TrackItem>, detailsMap: map<string, DetailsEntry>): (p: PanelItem)
    requires id in detailsMap
    ensures p.item.Some? <==> id in trackItemsMap
    ensures p.item.Some? ==> p.item.value == trackItemsMap[id]
    ensures detailsMap[id].details.Some? ==> p.details == detailsMap[id].details.value
    ensures detailsMap[id].details.None? ==> p.details == EmptyDetails
  {
    PanelItem(
      if id in trackItemsMap then Some(trackItemsMap[id]) else None,
      detailsMap[id].details.GetOr(EmptyDetails))
  }

  /** The item type each editor is for; the placeholder and the empty render are for none. */
  function EditorKind(e: Editor): Option<string>
  {
    match e
    case BasicText => Some("text")
    case BasicCaption => Some("caption")
    case BasicImage => Some("image")
    case BasicVideo => Some("video")
    case BasicAudio => Some("audio")
    case _ => None
  }

  /** `ActiveControlItem`: the editor rendered for the panel item. */
  function ActiveControlItem(trackItem: Option<PanelItem>): (e: Editor)
    ensures e == NoItemSelected <==> trackItem.None?
    ensures e == Nothing <==>
      trackItem.Some? && (trackItem.value.item.None? || trackItem.value.item.value.kind !in EditorKinds)
    ensures EditorKind(e).Some? ==>
      trackItem.Some? && trackItem.value.item.Some? && EditorKind(e) == Some(trackItem.value.item.value.kind)
  {
    if trackItem.None? then NoItemSelected
    else if trackItem.value.item.None? then Nothing
    else
      match trackItem.value.item.value.kind
      case "text" => BasicText
      case "caption" => BasicCaption
      case "image" => BasicImage
      case "video" => BasicVideo
      case "audio" => BasicAudio
      case _ => Nothing
  }

  /** Every type with an editor gets that editor, and `EditorKind` inverts the choice. */
  lemma EditorRoundTrip(p: PanelItem)
    requires p.item.Some? && p.item.value.kind in EditorKinds
    ensures EditorKind(ActiveControlItem(Some(p))) == Some(p.item.value.kind)
  {
  }

  /** The container's state: its own `trackItem` and the one written to the layout store. */
  class Container {
    var trackItem: Option<PanelItem>
    var layoutTrackItem: Option<PanelItem>

    ghost predicate Valid()
      reads this
    {
      trackItem == layoutTrackItem
    }

    constructor ()
      ensures Valid() && trackItem.None?
    {
      trackItem := None;
      layoutTrackItem := None;
    }

    /** The selection effect, run when the selection or the maps change. */
    method SelectionChanged(activeIds: seq<string>, trackItemsMap: map<string, TrackItem>,
                            detailsMap: map<string, DetailsEntry>)
      requires Valid()
      modifies this
      ensures Valid()
      ensures |activeIds| != 1 ==> trackItem.None?
      ensures |activeIds| == 1 && activeIds[0] in detailsMap ==>
        trackItem == Some(PanelItemFor(activeIds[0], trackItemsMap, detailsMap))
      ensures |activeIds| == 1 && activeIds[0] !in detailsMap ==> trackItem == old(trackItem)
    {
      if |activeIds| == 1 {
        var id := activeIds[0];
        if id in detailsMap {
          var fullTrackItem := PanelItemFor(id, trackItemsMap, detailsMap);
          trackItem := Some(fullTrackItem);
          layoutTrackItem := Some(fullTrackItem);
        }
      } else {
        trackItem := None;
        layoutTrackItem := None;
      }
    }
  }

  /** A single selected item with details and a type that has an editor is shown in that editor. */
  lemma SingleSelectionShowsItsEditor(id: string, trackItemsMap: map<string, TrackItem>,
                                      detailsMap: map<string, DetailsEntry>)
    requires id in detailsMap && id in trackItemsMap && trackItemsMap[id].kind in EditorKinds
    ensures EditorKind(ActiveControlItem(Some(PanelItemFor(id, trackItemsMap, detailsMap)))) == Some(trackItemsMap[id].kind)
    ensures PanelItemFor(id, trackItemsMap, detailsMap).details == detailsMap[id].details.GetOr(EmptyDetails)
  {
  }
}
