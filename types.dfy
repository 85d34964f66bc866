/** The records shared by every page: artworks, collections and the pointer's view mode. */
module Types {

  datatype Option<+T> = None | Some(value: T) {
    /** The value when present, otherwise the given default (the `a.f ?? d` of an absent key). */
    function GetOr(default: T): T {
      match this
      case Some(v) => v
      case None => default
    }
  }

  /** Whether an artwork can still be bought. */
  datatype Availability = ForSale | Sold | NotForSale

  /** The wire name of an availability value, as it is stored in an artwork record. */
  function AvailabilityName(a: Availability): (name: string)
    ensures name != [] && (name == "for_sale" <==> a == ForSale)
  {
    match a
    case ForSale => "for_sale"
    case Sold => "sold"
    case NotForSale => "nfs"
  }

  /** The visual state of the pointer-following indicator. */
  datatype ViewMode = View | Drag | Play | Default

  /**
   * One portfolio item. `collectionId` is `None` when the record has no such key at all,
   * which is what a record created from the admin form without choosing a collection holds.
   */
  datatype Artwork = Artwork(
    id: string,
    title: string,
    slug: string,
    year: string,
    medium: string,
    dimensions: string,
    description: string,
    collectionId: Option<string>,
    tags: seq<string>,
    availability: Availability,
    featured: bool,
    heroMedia: string,
    galleryMedia: seq<string>)

  /** A named grouping used only as a filter facet of the archive. */
  datatype Collection = Collection(id: string, name: string, slug: string, description: string)
}
