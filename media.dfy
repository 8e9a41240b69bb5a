/** The catalog the viewer browses: sections, each an ordered list of image attachments.
    The catalog is supplied once and never changed by the viewer. */
module Media {

  datatype Option<T> = None | Some(value: T)

  /** One image of a section; `id` identifies it, `url` is passed to the browser unvalidated. */
  datatype Attachment = Attachment(id: int, url: string, caption: string)

  /** A named section; the order of `attachments` is the order of previous/next navigation. */
  datatype Section = Section(id: int, name: string, attachments: seq<Attachment>)

  /** The sidebar keys its entries by section id, so the ids of a catalog must differ. */
  predicate DistinctIds(catalog: seq<Section>)
  {
    forall i, j :: 0 <= i < j < |catalog| ==> catalog[i].id != catalog[j].id
  }
}
