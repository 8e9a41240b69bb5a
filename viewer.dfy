/** The viewer state machine of the property-inspection page, on values: the four state
    fields, what each handler does to them, the display values derived from them, and the
    invariants every handler keeps. The class `HomePage.Home` updates the same fields in
    place and is specified by `Step`. */
module Viewer {
  import opened Media

  /** Shown when no image is selected or the selected attachment has no URL. */
  const Placeholder: string := "/property.jpg"
  /** Shown above the image when no section is selected or its name is empty. */
  const NoSelectionLabel: string := "Select an Image"

  const MinZoom: real := 1.0
  const MaxZoom: real := 3.0
  const ZoomStep: real := 0.2

  /** `openSection` is the id of the expanded sidebar section; `selectedSection` and
      `selectedImageIndex` name the displayed attachment; `zoom` is the display scale. */
  datatype ViewState = ViewState(
    openSection: Option<int>,
    selectedSection: Option<Section>,
    selectedImageIndex: int,
    zoom: real)

  /** The state when the page is first shown. */
  const Initial: ViewState := ViewState(None, None, 0, MinZoom)

  /** The user actions, one per handler of the page. The page defines `resetZoom` but
      attaches it to no control, so no click issues `ResetZoom`; the lemmas over all
      events cover it anyway. */
  datatype Event =
    | ToggleSection(sectionId: int)
    | ZoomIn
    | ZoomOut
    | ResetZoom
    | SelectImage(section: Section, index: int)
    | PrevImage
    | NextImage

  // ---------------------------------------------------------------------------------
  // Transitions

  /** A click on a section header collapses it if it is the open one, and otherwise opens
      it in place of whichever section was open. */
  function Toggled(open: Option<int>, id: int): (r: Option<int>)
    ensures r == None || r == Some(id)
    ensures r == None <==> open == Some(id)
  {
    if open == Some(id) then None else Some(id)
  }

  /** Zoom in by one step, saturating at the maximum. */
  function ZoomedIn(z: real): (r: real)
    ensures r <= MaxZoom
    ensures z <= MaxZoom ==> z <= r
    ensures r == MaxZoom || r == z + ZoomStep
    ensures z == MaxZoom ==> r == z
    ensures z + ZoomStep <= MaxZoom ==> r == z + ZoomStep
  {
    if z + ZoomStep <= MaxZoom then z + ZoomStep else MaxZoom
  }

  /** Zoom out by one step, saturating at the minimum. */
  function ZoomedOut(z: real): (r: real)
    ensures MinZoom <= r
    ensures MinZoom <= z ==> r <= z
    ensures r == MinZoom || r == z - ZoomStep
    ensures z == MinZoom ==> r == z
    ensures z - ZoomStep >= MinZoom ==> r == z - ZoomStep
  {
    if z - ZoomStep >= MinZoom then z - ZoomStep else MinZoom
  }

  /** A click on a thumbnail displays that attachment at the natural size; the sidebar
      expansion is left as it is. */
  function Selected(s: ViewState, section: Section, index: int): (r: ViewState)
    ensures r.selectedSection == Some(section) && r.selectedImageIndex == index
    ensures r.zoom == MinZoom
    ensures r.openSection == s.openSection
  {
    s.(selectedSection := Some(section), selectedImageIndex := index, zoom := MinZoom)
  }

  /** Whether the previous-image handler acts: a section is selected and the index is not the first. */
  predicate CanGoBack(s: ViewState)
  {
    s.selectedSection.Some? && s.selectedImageIndex > 0
  }

  /** Whether the next-image handler acts: a section is selected and the index is before its last attachment. */
  predicate CanGoForward(s: ViewState)
  {
    s.selectedSection.Some? && s.selectedImageIndex < |s.selectedSection.value.attachments| - 1
  }

  /** The previous-image handler: move one attachment back and reset the zoom, or do nothing. */
  function Back(s: ViewState): (r: ViewState)
    ensures r.selectedSection == s.selectedSection && r.openSection == s.openSection
    ensures r == s <==> !CanGoBack(s)
    ensures r != s ==> r.selectedImageIndex == s.selectedImageIndex - 1 && r.zoom == MinZoom
  {
    if CanGoBack(s) then s.(selectedImageIndex := s.selectedImageIndex - 1, zoom := MinZoom)
    else s
  }

  /** The next-image handler: move one attachment forward and reset the zoom, or do nothing. */
  function Forward(s: ViewState): (r: ViewState)
    ensures r.selectedSection == s.selectedSection && r.openSection == s.openSection
    ensures r == s <==> !CanGoForward(s)
    ensures r != s ==> r.selectedImageIndex == s.selectedImageIndex + 1 && r.zoom == MinZoom
  {
    if CanGoForward(s) then s.(selectedImageIndex := s.selectedImageIndex + 1, zoom := MinZoom)
    else s
  }

  /** The effect of one user action. */
  function Step(s: ViewState, e: Event): ViewState
  {
    match e
    case ToggleSection(id) => s.(openSection := Toggled(s.openSection, id))
    case ZoomIn => s.(zoom := ZoomedIn(s.zoom))
    case ZoomOut => s.(zoom := ZoomedOut(s.zoom))
    case ResetZoom => s.(zoom := MinZoom)
    case SelectImage(section, index) => Selected(s, section, index)
    case PrevImage => Back(s)
    case NextImage => Forward(s)
  }

  /** The effect of a sequence of user actions, one after another. */
  function Run(s: ViewState, es: seq<Event>): ViewState
    decreases |es|
  {
    if es == [] then s else Run(Step(s, es[0]), es[1..])
  }

  // ---------------------------------------------------------------------------------
  // Derived display values

  /** The URL of the displayed image: the selected attachment's URL when there is one and
      it is non-empty, and the placeholder otherwise. */
  function SelectedImage(s: ViewState): (url: string)
    ensures url != []
    ensures s.selectedSection.None? ==> url == Placeholder
    ensures url == Placeholder || (s.selectedSection.Some? &&
      0 <= s.selectedImageIndex < |s.selectedSection.value.attachments| &&
      url == s.selectedSection.value.attachments[s.selectedImageIndex].url)
    ensures s.selectedSection.Some? && 0 <= s.selectedImageIndex < |s.selectedSection.value.attachments|
      && s.selectedSection.value.attachments[s.selectedImageIndex].url != []
      ==> url == s.selectedSection.value.attachments[s.selectedImageIndex].url
  {
    match s.selectedSection
    case None => Placeholder
    case Some(section) =>
      if 0 <= s.selectedImageIndex < |section.attachments| && section.attachments[s.selectedImageIndex].url != ""
      then section.attachments[s.selectedImageIndex].url
      else Placeholder
  }

  /** The label above the image: the selected section's name, or a prompt. */
  function SectionLabel(s: ViewState): (name: string)
    ensures name != []
    ensures s.selectedSection.None? ==> name == NoSelectionLabel
    ensures s.selectedSection.Some? && s.selectedSection.value.name != [] ==> name == s.selectedSection.value.name
    ensures name == NoSelectionLabel || (s.selectedSection.Some? && name == s.selectedSection.value.name)
  {
    match s.selectedSection
    case None => NoSelectionLabel
    case Some(section) => if section.name != "" then section.name else NoSelectionLabel
  }

  /** Whether the thumbnail list of the section with this id is rendered. */
  predicate IsExpanded(s: ViewState, sectionId: int)
  {
    s.openSection == Some(sectionId)
  }

  /** A navigation button is either not rendered or rendered enabled or disabled. */
  datatype NavButton = Hidden | Shown(enabled: bool)

  /** Both navigation buttons are rendered only for a selected section with more than one attachment. */
  predicate ShowsNavigation(s: ViewState)
  {
    s.selectedSection.Some? && |s.selectedSection.value.attachments| > 1
  }

  /** The previous-image button: disabled at the first index. */
  function PrevButton(s: ViewState): (b: NavButton)
    ensures b.Shown? <==> ShowsNavigation(s)
    ensures b.Shown? ==> (b.enabled <==> s.selectedImageIndex != 0)
  {
    if ShowsNavigation(s) then Shown(s.selectedImageIndex != 0) else Hidden
  }

  /** The next-image button: disabled at the last index. */
  function NextButton(s: ViewState): (b: NavButton)
    ensures b.Shown? <==> ShowsNavigation(s)
    ensures b.Shown? ==> (b.enabled <==> s.selectedImageIndex != |s.selectedSection.value.attachments| - 1)
  {
    if ShowsNavigation(s) then Shown(s.selectedImageIndex != |s.selectedSection.value.attachments| - 1)
    else Hidden
  }

  // ---------------------------------------------------------------------------------
  // Invariants

  /** A selected section always has an attachment at the selected index. */
  predicate SelectionInRange(s: ViewState)
  {
    s.selectedSection.Some? ==> 0 <= s.selectedImageIndex < |s.selectedSection.value.attachments|
  }

  /** The zoom after `k` steps in from the minimum. */
  function ZoomLevel(k: int): real
  {
    MinZoom + (k as real) * ZoomStep
  }

  /** The zoom values the handlers can reach: 1, 1.2, ..., 3. */
  ghost predicate OnZoomGrid(z: real)
  {
    exists k :: 0 <= k <= 10 && z == ZoomLevel(k)
  }

  /** The user can select only what the sidebar lists: a thumbnail of a catalog section. */
  predicate Admissible(catalog: seq<Section>, e: Event)
  {
    e.SelectImage? ==> e.section in catalog && 0 <= e.index < |e.section.attachments|
  }

  /** What holds of every state the page reaches. */
  ghost predicate Inv(catalog: seq<Section>, s: ViewState)
  {
    (s.selectedSection.Some? ==> s.selectedSection.value in catalog)
    && SelectionInRange(s)
    && OnZoomGrid(s.zoom)
  }

  // ---------------------------------------------------------------------------------
  // Sidebar

  /** Toggling the same section twice restores the expansion only if that section or no
      section was open; if another one was open, all sections end up collapsed. */
  lemma ToggleTwice(open: Option<int>, id: int)
    ensures Toggled(Toggled(open, id), id) == if open == None || open == Some(id) then open else None
  {
  }

  /** Opening one section and then another leaves exactly the second one open. */
  lemma ToggleAnother(open: Option<int>, a: int, b: int)
    requires a != b
    ensures Toggled(Toggled(open, a), b) == Some(b)
  {
  }

  /** With distinct section ids, at most one section of the catalog is expanded. */
  lemma AtMostOneExpanded(catalog: seq<Section>, s: ViewState, i: int, j: int)
    requires DistinctIds(catalog)
    requires 0 <= i < |catalog| && 0 <= j < |catalog|
    requires IsExpanded(s, catalog[i].id) && IsExpanded(s, catalog[j].id)
    ensures i == j
  {
  }

  // ---------------------------------------------------------------------------------
  // Zoom

  /** Zooming in then out is the identity exactly when zooming in did not saturate. */
  lemma ZoomInThenOut(z: real)
    requires MinZoom <= z
    ensures ZoomedOut(ZoomedIn(z)) == z <==> z + ZoomStep <= MaxZoom
  {
  }

  /** On the grid, zooming in and out moves one level, saturating at levels 10 and 0. */
  lemma ZoomLevels(k: int)
    requires 0 <= k <= 10
    ensures ZoomedIn(ZoomLevel(k)) == ZoomLevel(if k < 10 then k + 1 else 10)
    ensures ZoomedOut(ZoomLevel(k)) == ZoomLevel(if k > 0 then k - 1 else 0)
  {
  }

  /** Every action keeps the zoom within [1, 3], from any zoom in that range. */
  lemma StepKeepsZoomInRange(s: ViewState, e: Event)
    requires MinZoom <= s.zoom <= MaxZoom
    ensures MinZoom <= Step(s, e).zoom <= MaxZoom
  {
  }

  /** Every sequence of actions keeps the zoom within [1, 3], from any zoom in that range. */
  lemma {:induction false} RunKeepsZoomInRange(s: ViewState, es: seq<Event>)
    requires MinZoom <= s.zoom <= MaxZoom
    ensures MinZoom <= Run(s, es).zoom <= MaxZoom
    decreases |es|
  {
    if es != [] {
      StepKeepsZoomInRange(s, es[0]);
      RunKeepsZoomInRange(Step(s, es[0]), es[1..]);
    }
  }

  // ---------------------------------------------------------------------------------
  // Selection and navigation

  /** Every admissible action keeps the invariant. */
  lemma StepPreservesInv(catalog: seq<Section>, s: ViewState, e: Event)
    requires Inv(catalog, s) && Admissible(catalog, e)
    ensures Inv(catalog, Step(s, e))
  {
    var k :| 0 <= k <= 10 && s.zoom == ZoomLevel(k);
    ZoomLevels(k);
    assert ZoomLevel(0) == MinZoom;
    if e.ZoomIn? {
      assert Step(s, e).zoom == ZoomLevel(if k < 10 then k + 1 else 10);
    } else if e.ZoomOut? {
      assert Step(s, e).zoom == ZoomLevel(if k > 0 then k - 1 else 0);
    } else if e.ResetZoom? || e.SelectImage? || (e.PrevImage? && CanGoBack(s)) || (e.NextImage? && CanGoForward(s)) {
      assert Step(s, e).zoom == ZoomLevel(0);
    } else {
      assert Step(s, e).zoom == ZoomLevel(k);
    }
  }

  /** The initial state satisfies the invariant, and every sequence of admissible actions keeps it. */
  lemma {:induction false} RunPreservesInv(catalog: seq<Section>, s: ViewState, es: seq<Event>)
    requires Inv(catalog, s)
    requires forall i :: 0 <= i < |es| ==> Admissible(catalog, es[i])
    ensures Inv(catalog, Run(s, es))
    decreases |es|
  {
    if es != [] {
      StepPreservesInv(catalog, s, es[0]);
      RunPreservesInv(catalog, Step(s, es[0]), es[1..]);
    }
  }

  /** The page starts in a state that satisfies the invariant. */
  lemma InitialInv(catalog: seq<Section>)
    ensures Inv(catalog, Initial)
  {
    assert Initial.zoom == ZoomLevel(0);
  }

  /** Selecting a thumbnail displays exactly that attachment (or the placeholder for an
      empty URL) under its section's label. */
  lemma SelectShowsAttachment(s: ViewState, section: Section, index: int)
    requires 0 <= index < |section.attachments|
    ensures SelectedImage(Selected(s, section, index)) ==
      if section.attachments[index].url != [] then section.attachments[index].url else Placeholder
    ensures SectionLabel(Selected(s, section, index)) ==
      if section.name != [] then section.name else NoSelectionLabel
  {
  }

  /** `n` presses of "next" from an in-range selection reach index min(i + n, last). */
  lemma {:induction false} RepeatedNext(s: ViewState, n: nat)
    requires s.selectedSection.Some? && SelectionInRange(s)
    ensures Run(s, seq(n, _ => NextImage)).selectedSection == s.selectedSection
    ensures var last := |s.selectedSection.value.attachments| - 1;
      Run(s, seq(n, _ => NextImage)).selectedImageIndex ==
        if s.selectedImageIndex + n <= last then s.selectedImageIndex + n else last
    decreases n
  {
    var es := seq(n, _ => NextImage);
    if n > 0 {
      assert es[1..] == seq(n - 1, _ => NextImage);
      RepeatedNext(Step(s, es[0]), n - 1);
    }
  }

  /** `n` presses of "previous" from an in-range selection reach index max(i - n, 0). */
  lemma {:induction false} RepeatedPrev(s: ViewState, n: nat)
    requires s.selectedSection.Some? && SelectionInRange(s)
    ensures Run(s, seq(n, _ => PrevImage)).selectedSection == s.selectedSection
    ensures Run(s, seq(n, _ => PrevImage)).selectedImageIndex ==
      if s.selectedImageIndex - n >= 0 then s.selectedImageIndex - n else 0
    decreases n
  {
    var es := seq(n, _ => PrevImage);
    if n > 0 {
      assert es[1..] == seq(n - 1, _ => PrevImage);
      RepeatedPrev(Step(s, es[0]), n - 1);
    }
  }

  /** "Previous" does nothing at the first index or before any selection; "next" does nothing at the last index. */
  lemma NavigationIdempotentAtBounds(s: ViewState)
    ensures s.selectedSection.None? || s.selectedImageIndex == 0 ==> Back(s) == s
    ensures s.selectedSection.None? || s.selectedImageIndex == |s.selectedSection.value.attachments| - 1 ==> Forward(s) == s
  {
  }

  /** A rendered button is enabled exactly when pressing it changes the state, and then it
      moves the selection by one; with a single attachment neither button is rendered and
      neither handler acts. */
  lemma ButtonsMatchHandlers(s: ViewState)
    requires SelectionInRange(s)
    ensures PrevButton(s).Shown? ==> (PrevButton(s).enabled <==> Back(s) != s)
    ensures PrevButton(s) == Shown(true) ==> Back(s).selectedImageIndex == s.selectedImageIndex - 1
    ensures NextButton(s).Shown? ==> (NextButton(s).enabled <==> Forward(s) != s)
    ensures NextButton(s) == Shown(true) ==> Forward(s).selectedImageIndex == s.selectedImageIndex + 1
    ensures s.selectedSection.Some? && |s.selectedSection.value.attachments| == 1 ==>
      PrevButton(s) == Hidden && NextButton(s) == Hidden && Back(s) == s && Forward(s) == s
  {
  }
}
