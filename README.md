# Property-inspection image viewer: the viewer state machine

The page lists inspection sections in a sidebar. Each section holds an ordered list of image
attachments. Next to the sidebar is a zoomable viewer for one image. This project models the
viewer state of the page's `Home` component and proves what its handlers do to that state.

The state has four fields:

- `openSection` is the id of the expanded sidebar section, if any.
- `selectedSection` is the section whose image is displayed, if any.
- `selectedImageIndex` is the position of the displayed attachment in that section.
- `zoom` is the display scale.

The model has three modules:

- `Media` (media.dfy) holds the `Attachment` and `Section` records and the distinct-id condition on a catalog.
- `Viewer` (viewer.dfy) works on values. It has the state as a datatype and one function per
  handler (`Toggled`, `ZoomedIn`, `ZoomedOut`, `Selected`, `Back`, `Forward`). `Step` dispatches
  one user action and `Run` applies a sequence of them. It also has the derived display values
  (image URL, section label, expansion flag, navigation buttons) and the lemmas.
- `HomePage` (home.dfy) has the class `Home`. It keeps the four fields and updates them in place,
  one method per handler. Each method's frame names only the fields that handler sets. Each
  method ensures `State() == Viewer.Step(old(State()), e)`, so every lemma about `Step` and `Run`
  applies to the object. `resetZoom` is defined by the page but attached to no control, so no
  click issues it; it is modelled all the same. Two client methods walk through a two-image
  section and a one-image section.

The zoom is an exact `real`. From 1, the zoom handlers reach only the levels `1 + 0.2·k` for
`k` in 0..10. The invariant `Viewer.Inv` says the zoom is one of these levels. It also says a
selected section comes from the catalog and has an attachment at the selected index.

Three behaviours of the code that a reader might not expect:

- Toggling the same section twice does not always restore the sidebar. If a different section was
  open, the second toggle collapses everything (`Viewer.ToggleTwice`).
- The "open full size" button opens the placeholder too when nothing is selected. Its test
  `if (selectedImage)` always passes, because the fallback URL is non-empty
  (`Viewer.SelectedImage` ensures a non-empty result).
- `selectImage` does not check its index or its section. The sidebar only calls it with positions
  of listed thumbnails, so `Home.SelectImage` requires the index to be in range and the section
  to be in the catalog.

## Model

| member | source | states |
|---|---|---|
| Viewer.Toggled | app/page.tsx:77-79 | The result is none or the toggled id, and it is none exactly when that id was already open. So at most one section is open. |
| Viewer.ZoomedIn | app/page.tsx:81 | Zoom in is a saturating increment: it is z + 0.2 whenever that is at most 3, and 3 otherwise; it never exceeds 3, never shrinks a zoom within range, and is a no-op at 3. |
| Viewer.ZoomedOut | app/page.tsx:82 | Zoom out is a saturating decrement: it is z - 0.2 whenever that is at least 1, and 1 otherwise; it never goes below 1, never grows a zoom of at least 1, and is a no-op at 1. |
| Viewer.Selected | app/page.tsx:85-89 | Selecting sets the section and the index, resets the zoom to 1, and leaves the sidebar expansion alone. |
| Viewer.Back | app/page.tsx:91-96 | "Previous" changes the state exactly when a section is selected and the index is above 0. It then decrements the index and resets the zoom. It never changes the selected or the open section. |
| Viewer.Forward | app/page.tsx:98-106 | "Next" changes the state exactly when a section is selected and the index is below the last. It then increments the index and resets the zoom. It never changes the selected or the open section. |
| Viewer.SelectedImage | app/page.tsx:108-109 | The displayed URL is never empty. It is the placeholder when nothing is selected, and otherwise the selected attachment's URL when that exists and is non-empty. It is always either the placeholder or that URL. |
| Viewer.SectionLabel | app/page.tsx:110 | The label is never empty. It is the prompt when nothing is selected, and otherwise the section's name when that is non-empty. It is always either the prompt or that name. |
| Viewer.PrevButton | app/page.tsx:238-247 | The previous button is rendered exactly when a section with more than one attachment is selected, and is enabled exactly when the index is not 0. |
| Viewer.NextButton | app/page.tsx:249-260 | The next button is rendered under the same condition, and is enabled exactly when the index is not the last. |
| Viewer.ToggleTwice | app/page.tsx:77-79 | Toggling the same id twice restores the expansion when it was none or that id, and otherwise yields none. |
| Viewer.ToggleAnother | app/page.tsx:77-79 | Opening one section and then a different one leaves exactly the second open. |
| Viewer.AtMostOneExpanded | app/page.tsx:136-162 | With distinct section ids, at most one catalog section renders its thumbnail list. |
| Viewer.ZoomInThenOut | app/page.tsx:81-82 | From a zoom of at least 1, zoom in then out restores the zoom exactly when z + 0.2 <= 3. |
| Viewer.ZoomLevels | app/page.tsx:81-83 | On the levels 1 + 0.2·k, zoom in moves up one level up to level 10 and zoom out moves down one level down to level 0. |
| Viewer.StepKeepsZoomInRange | app/page.tsx:77-106 | Every action keeps the zoom in [1, 3], starting from any zoom in [1, 3]. |
| Viewer.RunKeepsZoomInRange | app/page.tsx:77-106 | Every sequence of actions keeps the zoom in [1, 3], starting from any zoom in [1, 3]. |
| Viewer.StepPreservesInv | app/page.tsx:77-106 | Every action the sidebar and buttons can issue keeps the invariant: the selection is from the catalog, the index is in range, and the zoom is on a level. |
| Viewer.RunPreservesInv | app/page.tsx:77-106 | Every sequence of such actions keeps that invariant. |
| Viewer.InitialInv | app/page.tsx:70-75 | The initial state (nothing open, nothing selected, index 0, zoom 1) satisfies the invariant. |
| Viewer.SelectShowsAttachment | app/page.tsx:85-110 | After selecting a thumbnail, the viewer shows that attachment's URL (or the placeholder for an empty URL) and the section's name (or the prompt for an empty name). |
| Viewer.RepeatedNext | app/page.tsx:98-106 | n presses of "next" from an in-range selection reach index min(i + n, last) and keep the section. |
| Viewer.RepeatedPrev | app/page.tsx:91-96 | n presses of "previous" from an in-range selection reach index max(i - n, 0) and keep the section. |
| Viewer.NavigationIdempotentAtBounds | app/page.tsx:91-106 | "Previous" is a no-op at index 0 and before any selection. "Next" is a no-op at the last index and before any selection. |
| Viewer.ButtonsMatchHandlers | app/page.tsx:239-260 | A rendered button is enabled exactly when its handler changes the state, and then moves the index by one. A one-attachment section renders neither button, and neither handler acts on it. |
| HomePage.Home.constructor | app/page.tsx:70-75 | The page starts with nothing open, nothing selected, index 0 and zoom 1, and the invariant holds. |
| HomePage.Home.ToggleSection | app/page.tsx:77-79 | Only `openSection` changes, to none if it was the id and to the id otherwise. The invariant is kept. |
| HomePage.Home.ZoomIn | app/page.tsx:81 | Only `zoom` changes, to the saturating increment. The invariant is kept. |
| HomePage.Home.ZoomOut | app/page.tsx:82 | Only `zoom` changes, to the saturating decrement. The invariant is kept. |
| HomePage.Home.ResetZoom | app/page.tsx:83 | Only `zoom` changes, to 1. The page attaches this handler to no control. |
| HomePage.Home.SelectImage | app/page.tsx:85-89 | For a listed thumbnail, the section, the index and a zoom of 1 are set and `openSection` is untouched. The invariant is kept. |
| HomePage.Home.PrevImage | app/page.tsx:91-96 | When the guard holds, the index decrements and the zoom resets. Otherwise nothing changes. The section fields are never written. |
| HomePage.Home.NextImage | app/page.tsx:98-106 | When the guard holds, the index increments and the zoom resets. Otherwise nothing changes. The section fields are never written. |
| HomePage.TwoImageWalkthrough | app/page.tsx:85-110 | Two images: select the first, zoom in twice to 1.4, step to the second with the zoom reset, press "next" at the end with no effect, then step back to the first. |
| HomePage.SingleImageWalkthrough | app/page.tsx:239-260 | One image: after selecting it, neither navigation button is rendered, and both handlers leave the state unchanged. |

## Left out

- Markup, styling, the header, the logo, the icons and the CSS `scale(...)` transform. These are presentation only.
- The hardcoded sidebar data. The catalog is a parameter of `Home`, and the walkthroughs use small synthetic sections.
- `window.open` in the full-size button. It is browser I/O with no effect on the state.
- React's `useState`, re-rendering and update batching. Each handler is one synchronous update of the fields. Within one handler, the functional updaters act like reading the current field.
- Floating-point rounding of the `±0.2` zoom steps. The zoom is an exact real, so drift after repeated steps is not modelled.
- Image loading and fetching of attachment URLs. The browser does this, and it is not part of the state.
- Attachment ids are not required to be distinct. Only section ids matter to the state, through `openSection`.
