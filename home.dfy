/** The page component that owns the viewer state and updates it in place, one handler per
    user action. Each handler is specified by the value-level transition `Viewer.Step`, so
    everything proved about `Step` and `Run` holds of the object. */
module HomePage {
  import opened Media
  import Viewer

  class Home {
    /** The sections listed in the sidebar; the page never changes them. */
    const catalog: seq<Section>

    var openSection: Option<int>
    var selectedImageIndex: int
    var selectedSection: Option<Section>
    var zoom: real

    /** The four state fields as one value. */
    function State(): Viewer.ViewState
      reads this
    {
      Viewer.ViewState(openSection, selectedSection, selectedImageIndex, zoom)
    }

    /** The object invariant: a selected section comes from the catalog and has an
        attachment at the selected index, and the zoom is one of the levels 1, 1.2, ..., 3. */
    ghost predicate Valid()
      reads this
    {
      DistinctIds(catalog) && Viewer.Inv(catalog, State())
    }

    /** Nothing expanded, nothing selected, index 0, natural size. */
    constructor (catalog: seq<Section>)
      requires DistinctIds(catalog)
      ensures Valid() && this.catalog == catalog
      ensures State() == Viewer.Initial
    {
      this.catalog := catalog;
      openSection := None;
      selectedImageIndex := 0;
      selectedSection := None;
      zoom := Viewer.MinZoom;
      new;
      Viewer.InitialInv(catalog);
    }

    /** Click on a section header: collapse it if it is open, otherwise open it alone. */
    method ToggleSection(id: int)
      requires Valid()
      modifies this`openSection
      ensures Valid()
      ensures openSection == (if old(openSection) == Some(id) then None else Some(id))
      ensures State() == Viewer.Step(old(State()), Viewer.ToggleSection(id))
    {
      ghost var before := State();
      if openSection == Some(id) {
        openSection := None;
      } else {
        openSection := Some(id);
      }
      Viewer.StepPreservesInv(catalog, before, Viewer.ToggleSection(id));
    }

    /** The "+" button: one step larger, at most 3. */
    method ZoomIn()
      requires Valid()
      modifies this`zoom
      ensures Valid()
      ensures zoom == Viewer.ZoomedIn(old(zoom))
      ensures State() == Viewer.Step(old(State()), Viewer.ZoomIn)
    {
      ghost var before := State();
      if zoom + Viewer.ZoomStep <= Viewer.MaxZoom {
        zoom := zoom + Viewer.ZoomStep;
      } else {
        zoom := Viewer.MaxZoom;
      }
      Viewer.StepPreservesInv(catalog, before, Viewer.ZoomIn);
    }

    /** The "-" button: one step smaller, at least 1. */
    method ZoomOut()
      requires Valid()
      modifies this`zoom
      ensures Valid()
      ensures zoom == Viewer.ZoomedOut(old(zoom))
      ensures State() == Viewer.Step(old(State()), Viewer.ZoomOut)
    {
      ghost var before := State();
      if zoom - Viewer.ZoomStep >= Viewer.MinZoom {
        zoom := zoom - Viewer.ZoomStep;
      } else {
        zoom := Viewer.MinZoom;
      }
      Viewer.StepPreservesInv(catalog, before, Viewer.ZoomOut);
    }

    /** Back to the natural size. */
    method ResetZoom()
      requires Valid()
      modifies this`zoom
      ensures Valid()
      ensures zoom == Viewer.MinZoom
      ensures State() == Viewer.Step(old(State()), Viewer.ResetZoom)
    {
      ghost var before := State();
      zoom := Viewer.MinZoom;
      Viewer.StepPreservesInv(catalog, before, Viewer.ResetZoom);
    }

    /** Click on a thumbnail: display the attachment at `index` of `section` at the natural
        size. The sidebar offers only thumbnails of catalog sections, by their positions. */
    method SelectImage(section: Section, index: int)
      requires Valid()
      requires section in catalog && 0 <= index < |section.attachments|
      modifies this`selectedSection, this`selectedImageIndex, this`zoom
      ensures Valid()
      ensures selectedSection == Some(section) && selectedImageIndex == index && zoom == Viewer.MinZoom
      ensures State() == Viewer.Step(old(State()), Viewer.SelectImage(section, index))
    {
      ghost var before := State();
      selectedSection := Some(section);
      selectedImageIndex := index;
      zoom := Viewer.MinZoom;
      Viewer.StepPreservesInv(catalog, before, Viewer.SelectImage(section, index));
    }

    /** The "previous" button: one attachment back with the zoom reset, or nothing at the
        first attachment or before any selection. */
    method PrevImage()
      requires Valid()
      modifies this`selectedImageIndex, this`zoom
      ensures Valid()
      ensures old(Viewer.CanGoBack(State())) ==>
        selectedImageIndex == old(selectedImageIndex) - 1 && zoom == Viewer.MinZoom
      ensures !old(Viewer.CanGoBack(State())) ==> State() == old(State())
      ensures State() == Viewer.Step(old(State()), Viewer.PrevImage)
    {
      ghost var before := State();
      if selectedSection.Some? && selectedImageIndex > 0 {
        selectedImageIndex := selectedImageIndex - 1;
        zoom := Viewer.MinZoom;
      }
      Viewer.StepPreservesInv(catalog, before, Viewer.PrevImage);
    }

    /** The "next" button: one attachment forward with the zoom reset, or nothing at the
        last attachment or before any selection. */
    method NextImage()
      requires Valid()
      modifies this`selectedImageIndex, this`zoom
      ensures Valid()
      ensures old(Viewer.CanGoForward(State())) ==>
        selectedImageIndex == old(selectedImageIndex) + 1 && zoom == Viewer.MinZoom
      ensures !old(Viewer.CanGoForward(State())) ==> State() == old(State())
      ensures State() == Viewer.Step(old(State()), Viewer.NextImage)
    {
      ghost var before := State();
      if selectedSection.Some? && selectedImageIndex < |selectedSection.value.attachments| - 1 {
        selectedImageIndex := selectedImageIndex + 1;
        zoom := Viewer.MinZoom;
      }
      Viewer.StepPreservesInv(catalog, before, Viewer.NextImage);
    }
  }

  /** A walk through a section with two images: select the first, zoom in twice, step to
      the second (zoom resets), press "next" at the end (nothing happens), step back. */
  method TwoImageWalkthrough(x: Attachment, y: Attachment) returns (home: Home)
    requires x.url != [] && y.url != []
    ensures home.selectedImageIndex == 0 && home.zoom == Viewer.MinZoom
    ensures Viewer.SelectedImage(home.State()) == x.url
  {
    var a := Section(1, "A", [x, y]);
    home := new Home([a]);
    assert Viewer.SelectedImage(home.State()) == Viewer.Placeholder;
    assert Viewer.SectionLabel(home.State()) == Viewer.NoSelectionLabel;

    home.SelectImage(a, 0);
    assert Viewer.SelectedImage(home.State()) == x.url && home.zoom == 1.0;
    assert Viewer.PrevButton(home.State()) == Viewer.Shown(false);
    assert Viewer.NextButton(home.State()) == Viewer.Shown(true);

    home.ZoomIn();
    home.ZoomIn();
    assert home.zoom == 1.4;
    home.ToggleSection(1);
    assert Viewer.IsExpanded(home.State(), 1);

    home.NextImage();
    assert home.selectedImageIndex == 1 && home.zoom == 1.0;
    assert Viewer.SelectedImage(home.State()) == y.url;
    assert Viewer.NextButton(home.State()) == Viewer.Shown(false);

    ghost var atEnd := home.State();
    home.NextImage();
    assert home.State() == atEnd;

    home.PrevImage();
    assert home.selectedImageIndex == 0;
  }

  /** A section with a single image: after selecting it, neither navigation button is
      rendered and both navigation handlers leave the state as it is. */
  method SingleImageWalkthrough(x: Attachment) returns (home: Home)
    ensures Viewer.PrevButton(home.State()) == Viewer.Hidden
    ensures Viewer.NextButton(home.State()) == Viewer.Hidden
    ensures home.selectedImageIndex == 0
  {
    var b := Section(2, "B", [x]);
    home := new Home([b]);
    home.SelectImage(b, 0);
    ghost var selected := home.State();
    home.NextImage();
    home.PrevImage();
    assert home.State() == selected;
  }
}
