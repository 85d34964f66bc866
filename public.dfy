/**
 * The public pages' selections from the artwork list: the home page's featured carousels,
 * the archive's collection filter, the detail page's lookup by slug and its availability badge,
 * and the detail gallery's effect on the pointer's view mode.
 */
module Public {
  import opened Types
  import Lists
  import Strings
  import UI

  // ---------------------------------------------------------------------------
  // Home
  // ---------------------------------------------------------------------------

  /** How many featured artworks the depth section shows at most. */
  const DepthLimit: nat := 5

  /** `artworks.filter(a => a.featured)`. */
  function Featured(artworks: seq<Artwork>): (r: seq<Artwork>)
    ensures |r| <= |artworks|
    ensures forall a :: a in r ==> a.featured
  {
    Lists.FilterMembership((a: Artwork) => a.featured, artworks);
    Lists.Filter((a: Artwork) => a.featured, artworks)
  }

  /** `featured.slice(0, 5)`: what the depth section receives. */
  function DepthSection(artworks: seq<Artwork>): (r: seq<Artwork>)
    ensures |r| <= DepthLimit && r <= Featured(artworks)
  {
    var f := Featured(artworks);
    if |f| <= DepthLimit then f else f[..DepthLimit]
  }

  /** What the horizontal gallery receives: every featured artwork. */
  function HorizontalGallery(artworks: seq<Artwork>): (r: seq<Artwork>)
    ensures DepthSection(artworks) <= r
  {
    Featured(artworks)
  }

  /** The featured list holds exactly the featured artworks, in their original order. */
  lemma {:induction false} FeaturedSpec(artworks: seq<Artwork>)
    ensures forall a :: a in Featured(artworks) <==> a in artworks && a.featured
    ensures Lists.IsSubsequence(Featured(artworks), artworks)
    ensures |Featured(artworks)| == Lists.Count((a: Artwork) => a.featured, artworks)
  {
    Lists.FilterMembership((a: Artwork) => a.featured, artworks);
    Lists.FilterIsSubsequence((a: Artwork) => a.featured, artworks);
    Lists.FilterLength((a: Artwork) => a.featured, artworks);
  }

  /**
   * The depth section gets the first min(5, |featured|) featured artworks, in order, and is
   * itself an order-preserving selection of featured artworks; the gallery gets all of them.
   */
  lemma {:induction false} HomeSectionsSpec(artworks: seq<Artwork>)
    ensures |DepthSection(artworks)| ==
      if |Featured(artworks)| <= DepthLimit then |Featured(artworks)| else DepthLimit
    ensures forall i :: 0 <= i < |DepthSection(artworks)| ==>
      DepthSection(artworks)[i] == Featured(artworks)[i] && DepthSection(artworks)[i].featured
    ensures Lists.IsSubsequence(DepthSection(artworks), artworks)
    ensures HorizontalGallery(artworks) == Featured(artworks)
  {
    var f := Featured(artworks);
    FeaturedSpec(artworks);
    if |f| <= DepthLimit {
      Lists.PrefixIsSubsequence(f, |f|);
      assert f[..|f|] == f;
    } else {
      Lists.PrefixIsSubsequence(f, DepthLimit);
      Lists.SubsequenceTrans(f[..DepthLimit], f, artworks);
    }
    forall i | 0 <= i < |DepthSection(artworks)| ensures DepthSection(artworks)[i].featured {
      assert DepthSection(artworks)[i] == f[i] && f[i] in f;
    }
  }

  // ---------------------------------------------------------------------------
  // Archive
  // ---------------------------------------------------------------------------

  /** The archive filter's sentinel, also its initial value. */
  const AllFilter: string := "all"

  /** `filter === 'all' ? artworks : artworks.filter(a => a.collectionId === filter)`. */
  function ArchiveFilter(artworks: seq<Artwork>, filter: string): (r: seq<Artwork>)
    ensures |r| <= |artworks|
    ensures filter != AllFilter ==> forall a :: a in r ==> a.collectionId == Some(filter)
  {
    if filter == AllFilter then artworks
    else
      Lists.FilterMembership((a: Artwork) => a.collectionId == Some(filter), artworks);
      Lists.Filter((a: Artwork) => a.collectionId == Some(filter), artworks)
  }

  /**
   * The archive's filter buttons, in order: "All" (the sentinel) and then one per collection,
   * each setting the filter to that collection's id.
   */
  function FilterChoices(collections: seq<Collection>): (r: seq<string>)
    ensures |r| == |collections| + 1 && r[0] == AllFilter
    ensures forall i :: 0 <= i < |collections| ==> r[i + 1] == collections[i].id
    ensures forall c :: c in collections ==> c.id in r
  {
    var ids := Lists.Map((c: Collection) => c.id, collections);
    forall i | 0 <= i < |collections| ensures ([AllFilter] + ids)[i + 1] == collections[i].id {
      Lists.MapAt((c: Collection) => c.id, collections, i);
    }
    forall c | c in collections ensures c.id in [AllFilter] + ids {
      var i :| 0 <= i < |collections| && collections[i] == c;
      assert ([AllFilter] + ids)[i + 1] == c.id;
    }
    [AllFilter] + ids
  }

  /**
   * Pressing a collection's button shows exactly that collection's artworks, unless its id
   * collides with the sentinel, in which case the whole list is shown.
   */
  lemma {:induction false} FilterChoiceSpec(artworks: seq<Artwork>, collections: seq<Collection>, i: nat)
    requires i < |collections|
    ensures collections[i].id in FilterChoices(collections)
    ensures collections[i].id == AllFilter ==> ArchiveFilter(artworks, collections[i].id) == artworks
    ensures collections[i].id != AllFilter ==>
      forall a :: a in ArchiveFilter(artworks, collections[i].id) <==>
        a in artworks && a.collectionId == Some(collections[i].id)
  {
    assert collections[i] in collections;
    ArchiveFilterSpec(artworks, collections[i].id);
  }

  /**
   * The sentinel passes the list through; any other value keeps exactly the artworks of that
   * collection. Either way the result is an order-preserving selection, no longer than the
   * list, and filtering it again by the same value changes nothing.
   */
  lemma {:induction false} ArchiveFilterSpec(artworks: seq<Artwork>, filter: string)
    ensures filter == AllFilter ==> ArchiveFilter(artworks, filter) == artworks
    ensures filter != AllFilter ==>
      forall a :: a in ArchiveFilter(artworks, filter) <==> a in artworks && a.collectionId == Some(filter)
    ensures Lists.IsSubsequence(ArchiveFilter(artworks, filter), artworks)
    ensures filter != AllFilter ==>
      |ArchiveFilter(artworks, filter)| == Lists.Count((a: Artwork) => a.collectionId == Some(filter), artworks)
    ensures |ArchiveFilter(artworks, filter)| <= |artworks|
    ensures ArchiveFilter(ArchiveFilter(artworks, filter), filter) == ArchiveFilter(artworks, filter)
  {
    var inCollection := (a: Artwork) => a.collectionId == Some(filter);
    if filter == AllFilter {
      Lists.SubsequenceRefl(artworks);
    } else {
      Lists.FilterMembership(inCollection, artworks);
      Lists.FilterIsSubsequence(inCollection, artworks);
      Lists.FilterIdempotent(inCollection, artworks);
      Lists.FilterLength(inCollection, artworks);
    }
  }

  // ---------------------------------------------------------------------------
  // Artwork detail
  // ---------------------------------------------------------------------------

  /** The two outcomes of the detail route. */
  datatype DetailPage = NotFound | Found(artwork: Artwork)

  /** `artworks.find(a => a.slug === slug)`, with the "Artwork not found" branch. */
  function Detail(artworks: seq<Artwork>, slug: string): (r: DetailPage)
    ensures r.Found? ==> r.artwork.slug == slug && r.artwork in artworks
  {
    match Lists.Find((a: Artwork) => a.slug == slug, artworks)
    case Some(a) => Found(a)
    case None => NotFound
  }

  /**
   * The not-found branch is taken exactly when no artwork has the slug; otherwise the page
   * shows the FIRST artwork carrying it (slugs need not be unique).
   */
  lemma {:induction false} DetailSpec(artworks: seq<Artwork>, slug: string)
    ensures Detail(artworks, slug) == NotFound <==>
      forall i :: 0 <= i < |artworks| ==> artworks[i].slug != slug
    ensures Detail(artworks, slug).Found? ==>
      exists i :: 0 <= i < |artworks| && artworks[i] == Detail(artworks, slug).artwork &&
        artworks[i].slug == slug && forall j :: 0 <= j < i ==> artworks[j].slug != slug
  {
    Lists.FindFirst((a: Artwork) => a.slug == slug, artworks);
  }

  /** `availability.replace('_', ' ')`: the badge text. */
  function AvailabilityLabel(a: Availability): (badge: string)
    ensures |badge| == |AvailabilityName(a)| && badge != []
  {
    Strings.ReplaceFirst(AvailabilityName(a), '_', ' ')
  }

  /** The badge reads "for sale", "sold" or "nfs". */
  lemma {:induction false} AvailabilityLabels()
    ensures AvailabilityLabel(ForSale) == "for sale"
    ensures AvailabilityLabel(Sold) == "sold"
    ensures AvailabilityLabel(NotForSale) == "nfs"
  {
    Strings.ReplaceFirstSpec("for_sale", '_', ' ');
    assert "for_sale"[..3] == "for";
    assert "for_sale"[3 := ' '] == "for sale";
    Strings.ReplaceFirstSpec("sold", '_', ' ');
    Strings.ReplaceFirstSpec("nfs", '_', ' ');
  }

  /** The badge uses the accent colour exactly for artworks still for sale. */
  function AccentBadge(a: Availability): (accent: bool)
    ensures accent <==> a == ForSale
  {
    AvailabilityName(a) == "for_sale"
  }

  /** Entering a gallery image turns the pointer into the "View" indicator. */
  method GalleryImageEnter(ui: UI.UIState)
    modifies ui
    ensures ui.viewMode == View && ui.isMenuOpen == old(ui.isMenuOpen)
  {
    ui.SetViewMode(View);
  }

  /** Leaving a gallery image returns the pointer to its plain form, whatever it was. */
  method GalleryImageLeave(ui: UI.UIState)
    modifies ui
    ensures ui.viewMode == Default && ui.isMenuOpen == old(ui.isMenuOpen)
  {
    ui.SetViewMode(Default);
  }
}
