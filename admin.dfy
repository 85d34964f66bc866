/**
 * The creator dashboard: an editor for the in-memory artwork list.
 *
 * The list updates themselves (overlay-by-id, prepend, remove-by-id) and the title-to-slug
 * rule are pure functions; the dashboard's own state (which screen is shown, which id is being
 * edited, the partially filled form) and the lifted artwork list live in the class `Dashboard`,
 * whose methods are the event handlers.
 */
module Admin {
  import opened Types
  import Lists
  import Strings

  // ---------------------------------------------------------------------------
  // The form draft: a partial artwork record
  // ---------------------------------------------------------------------------

  /** A partial artwork record: each field is either present (`Some`) or absent (`None`). */
  datatype Draft = Draft(
    id: Option<string>,
    title: Option<string>,
    slug: Option<string>,
    year: Option<string>,
    medium: Option<string>,
    dimensions: Option<string>,
    description: Option<string>,
    collectionId: Option<string>,
    tags: Option<seq<string>>,
    availability: Option<Availability>,
    featured: Option<bool>,
    heroMedia: Option<string>,
    galleryMedia: Option<seq<string>>)
  {
    /** Every field a record needs except `id` (supplied on creation) and `collectionId` (optional). */
    predicate HasRecordFields() {
      title.Some? && slug.Some? && year.Some? && medium.Some? && dimensions.Some? &&
      description.Some? && tags.Some? && availability.Some? && featured.Some? &&
      heroMedia.Some? && galleryMedia.Some?
    }
  }

  /** The draft before any handler ran: the empty object. */
  function EmptyDraft(): Draft {
    Draft(None, None, None, None, None, None, None, None, None, None, None, None, None)
  }

  /** Placeholder hero image of a new artwork. */
  const PlaceholderHero: string := "https://picsum.photos/1000/1000"

  /** The draft "New Artwork" starts from; `currentYear` is the year the clock reports. */
  function NewDraft(currentYear: string): (d: Draft)
    ensures d.HasRecordFields() && d.id.None? && d.collectionId.None?
    ensures d.title == Some("") && d.slug == Some("") && d.year == Some(currentYear)
    ensures d.availability == Some(ForSale) && d.featured == Some(false)
    ensures d.tags == Some([]) && d.galleryMedia == Some([])
  {
    Draft(
      id := None, title := Some(""), slug := Some(""), year := Some(currentYear),
      medium := Some(""), dimensions := Some(""), description := Some(""),
      collectionId := None, tags := Some([]), availability := Some(ForSale),
      featured := Some(false), heroMedia := Some(PlaceholderHero), galleryMedia := Some([]))
  }

  /** The draft "Edit" starts from: a copy of every key the artwork has. */
  function FromArtwork(a: Artwork): (d: Draft)
    ensures d.HasRecordFields() && d.id == Some(a.id)
  {
    Draft(
      Some(a.id), Some(a.title), Some(a.slug), Some(a.year), Some(a.medium),
      Some(a.dimensions), Some(a.description), a.collectionId, Some(a.tags),
      Some(a.availability), Some(a.featured), Some(a.heroMedia), Some(a.galleryMedia))
  }

  /** `{ ...a, ...d }`: each key present in the draft replaces the record's value. */
  function Overlay(a: Artwork, d: Draft): (r: Artwork)
    ensures d == EmptyDraft() ==> r == a
    ensures d.HasRecordFields() && d.id.Some? && d.collectionId.Some? ==> FromArtwork(r) == d
  {
    Artwork(
      d.id.GetOr(a.id), d.title.GetOr(a.title), d.slug.GetOr(a.slug), d.year.GetOr(a.year),
      d.medium.GetOr(a.medium), d.dimensions.GetOr(a.dimensions),
      d.description.GetOr(a.description),
      if d.collectionId.Some? then d.collectionId else a.collectionId,
      d.tags.GetOr(a.tags), d.availability.GetOr(a.availability), d.featured.GetOr(a.featured),
      d.heroMedia.GetOr(a.heroMedia), d.galleryMedia.GetOr(a.galleryMedia))
  }

  /** `{ ...d, id: freshId }`: the record a create-mode save prepends. */
  function NewRecord(d: Draft, freshId: string): (r: Artwork)
    requires d.HasRecordFields()
    ensures FromArtwork(r) == d.(id := Some(freshId))
  {
    Artwork(
      freshId, d.title.value, d.slug.value, d.year.value, d.medium.value,
      d.dimensions.value, d.description.value, d.collectionId, d.tags.value,
      d.availability.value, d.featured.value, d.heroMedia.value, d.galleryMedia.value)
  }

  // ---------------------------------------------------------------------------
  // The title-to-slug rule
  // ---------------------------------------------------------------------------

  /** `title.toLowerCase().replace(/ /g, '-')`, with ASCII lower-casing. */
  function Slug(title: string): (slug: string)
    ensures |slug| == |title| && ' ' !in slug
  {
    Strings.ReplaceAll(Strings.ToLower(title), ' ', '-')
  }

  /** A string the slug rule can produce: no space and no upper-case ASCII letter. */
  predicate IsSlug(s: string) {
    forall i :: 0 <= i < |s| ==> s[i] != ' ' && !Strings.IsAsciiUpper(s[i])
  }

  /**
   * The slug has the title's length; at every position it holds the title's character
   * lower-cased, with a space turned into `-`. Hence it never contains a space.
   */
  lemma {:induction false} SlugAt(title: string)
    ensures |Slug(title)| == |title|
    ensures forall i :: 0 <= i < |title| ==>
      Slug(title)[i] == (if Strings.LowerChar(title[i]) == ' ' then '-' else Strings.LowerChar(title[i]))
    ensures IsSlug(Slug(title)) && ' ' !in Slug(title)
  {
    forall i | 0 <= i < |title|
      ensures Slug(title)[i] == (if Strings.LowerChar(title[i]) == ' ' then '-' else Strings.LowerChar(title[i]))
    {
      Strings.ToLowerAt(title, i);
      Strings.ReplaceAllAt(Strings.ToLower(title), ' ', '-', i);
    }
  }

  /** The slug rule leaves a string unchanged exactly when that string is already a slug. */
  lemma {:induction false} SlugFixpoints(s: string)
    ensures Slug(s) == s <==> IsSlug(s)
  {
    SlugAt(s);
    if IsSlug(s) {
      forall i | 0 <= i < |s| ensures Slug(s)[i] == s[i] {
      }
    }
  }

  /** Re-deriving the slug from a derived slug changes nothing. */
  lemma {:induction false} SlugIdempotent(title: string)
    ensures Slug(Slug(title)) == Slug(title)
  {
    SlugAt(title);
    SlugFixpoints(Slug(title));
  }

  /** A worked example: "Blue Hour" becomes "blue-hour". */
  lemma {:induction false} SlugExampleBlueHour()
    ensures Slug("Blue Hour") == "blue-hour"
  {
    SlugExample("Blue Hour", "blue-hour");
  }

  /** A worked example: "Red Dawn" becomes "red-dawn". */
  lemma {:induction false} SlugExampleRedDawn()
    ensures Slug("Red Dawn") == "red-dawn"
  {
    SlugExample("Red Dawn", "red-dawn");
  }

  /** A title and a candidate slug agree position by position. */
  lemma {:induction false} SlugExample(title: string, slug: string)
    requires |title| == |slug|
    requires forall i :: 0 <= i < |title| ==>
      slug[i] == (if Strings.LowerChar(title[i]) == ' ' then '-' else Strings.LowerChar(title[i]))
    ensures Slug(title) == slug
  {
    SlugAt(title);
  }

  // ---------------------------------------------------------------------------
  // The list updates
  // ---------------------------------------------------------------------------

  /** JavaScript truthiness of the edited id: `null` and `""` both select the create branch. */
  function Truthy(editingId: Option<string>): (t: bool)
    ensures t <==> editingId != None && editingId != Some("")
  {
    editingId.Some? && editingId.value != ""
  }

  /** `prev.map(a => a.id === id ? { ...a, ...d } : a)`. */
  function UpdateWhere(s: seq<Artwork>, id: string, d: Draft): (r: seq<Artwork>)
    ensures |r| == |s|
  {
    Lists.Map((a: Artwork) => if a.id == id then Overlay(a, d) else a, s)
  }

  /** `prev.filter(a => a.id !== id)`. */
  function RemoveId(s: seq<Artwork>, id: string): (r: seq<Artwork>)
    ensures |r| <= |s|
    ensures forall a :: a in r ==> a.id != id
  {
    Lists.FilterMembership((a: Artwork) => a.id != id, s);
    Lists.Filter((a: Artwork) => a.id != id, s)
  }

  /** The list a save leaves behind: update in place when editing, prepend otherwise. */
  function Saved(s: seq<Artwork>, editingId: Option<string>, d: Draft, freshId: string): (r: seq<Artwork>)
    requires !Truthy(editingId) ==> d.HasRecordFields()
    ensures |r| == if Truthy(editingId) then |s| else |s| + 1
  {
    if Truthy(editingId) then UpdateWhere(s, editingId.value, d)
    else [NewRecord(d, freshId)] + s
  }

  /**
   * Whether the form's required title input has a value: it shows `formData.title || ''`,
   * so a missing title and an empty one both block the submission.
   */
  predicate TitleFilled(d: Draft) {
    d.title.Some? && d.title.value != ""
  }

  /** Some record of `s` carries `id`. */
  predicate HasId(s: seq<Artwork>, id: string) {
    exists i :: 0 <= i < |s| && s[i].id == id
  }

  /** No two records of `s` share an id (assumed of the store, never enforced by it). */
  predicate UniqueIds(s: seq<Artwork>) {
    s == [] || (!HasId(s[1..], s[0].id) && UniqueIds(s[1..]))
  }

  /** Overlaying an empty draft changes nothing; overlaying is idempotent. */
  lemma OverlayLaws(a: Artwork, d: Draft)
    ensures Overlay(a, EmptyDraft()) == a
    ensures Overlay(Overlay(a, d), d) == Overlay(a, d)
  {
  }

  /**
   * Saving an unmodified edit draft of `b` over a record `a` yields `b`, except that a
   * collection key `b` lacks is kept from `a`.
   */
  lemma OverlayFromArtwork(a: Artwork, b: Artwork)
    ensures Overlay(a, FromArtwork(b)) == b.(collectionId := if b.collectionId.Some? then b.collectionId else a.collectionId)
  {
  }

  /**
   * Edit-mode save: length and order are kept; each record with the edited id becomes that
   * record overlaid with the draft; every other record is unchanged.
   */
  lemma {:induction false} UpdateWhereSpec(s: seq<Artwork>, id: string, d: Draft)
    ensures |UpdateWhere(s, id, d)| == |s|
    ensures forall i :: 0 <= i < |s| ==>
      UpdateWhere(s, id, d)[i] == if s[i].id == id then Overlay(s[i], d) else s[i]
  {
    forall i | 0 <= i < |s|
      ensures UpdateWhere(s, id, d)[i] == if s[i].id == id then Overlay(s[i], d) else s[i]
    {
      Lists.MapAt((a: Artwork) => if a.id == id then Overlay(a, d) else a, s, i);
    }
  }

  /** Edit-mode save with an id no record carries leaves the list as it was. */
  lemma {:induction false} UpdateWhereAbsent(s: seq<Artwork>, id: string, d: Draft)
    requires !HasId(s, id)
    ensures UpdateWhere(s, id, d) == s
  {
    Lists.MapIdentity((a: Artwork) => if a.id == id then Overlay(a, d) else a, s);
  }

  /** When the draft's id is absent or is the edited id, no record's id changes. */
  lemma {:induction false} UpdateWhereKeepsIds(s: seq<Artwork>, id: string, d: Draft)
    requires d.id == None || d.id == Some(id)
    ensures forall i :: 0 <= i < |s| ==> UpdateWhere(s, id, d)[i].id == s[i].id
  {
    UpdateWhereSpec(s, id, d);
  }

  /**
   * Delete: the records kept are exactly those whose id differs, in their original order.
   * An absent id leaves the list unchanged.
   */
  lemma {:induction false} RemoveIdSpec(s: seq<Artwork>, id: string)
    ensures forall a :: a in RemoveId(s, id) <==> a in s && a.id != id
    ensures !HasId(RemoveId(s, id), id)
    ensures Lists.IsSubsequence(RemoveId(s, id), s)
    ensures !HasId(s, id) ==> RemoveId(s, id) == s
    ensures |RemoveId(s, id)| == Lists.Count((a: Artwork) => a.id != id, s)
  {
    var keep := (a: Artwork) => a.id != id;
    Lists.FilterMembership(keep, s);
    Lists.FilterIsSubsequence(keep, s);
    Lists.FilterLength(keep, s);
    if !HasId(s, id) {
      Lists.FilterAll(keep, s);
    }
  }

  /** With unique ids, deleting a present id shortens the list by exactly one. */
  lemma {:induction false} RemoveIdLength(s: seq<Artwork>, id: string)
    requires UniqueIds(s) && HasId(s, id)
    ensures |RemoveId(s, id)| == |s| - 1
    decreases |s|
  {
    assert s != [];
    assert RemoveId(s, id) == Lists.Filter((a: Artwork) => a.id != id, s);
    if s[0].id == id {
      RemoveIdSpec(s[1..], id);
    } else {
      var k :| 0 <= k < |s| && s[k].id == id;
      assert s[1..][k - 1].id == id;
      RemoveIdLength(s[1..], id);
    }
  }

  /** Removing records keeps ids unique. */
  lemma {:induction false} RemoveIdKeepsUnique(s: seq<Artwork>, id: string)
    requires UniqueIds(s)
    ensures UniqueIds(RemoveId(s, id))
    decreases |s|
  {
    if s != [] {
      RemoveIdKeepsUnique(s[1..], id);
      if s[0].id != id {
        RemoveIdSpec(s[1..], id);
        assert RemoveId(s, id) == [s[0]] + RemoveId(s[1..], id);
        assert RemoveId(s, id)[1..] == RemoveId(s[1..], id);
      }
    }
  }

  /** An update that keeps every id keeps ids unique. */
  lemma {:induction false} SameIdsKeepUnique(s: seq<Artwork>, t: seq<Artwork>)
    requires UniqueIds(s) && |t| == |s|
    requires forall i :: 0 <= i < |s| ==> t[i].id == s[i].id
    ensures UniqueIds(t)
    decreases |s|
  {
    if s != [] {
      SameIdsKeepUnique(s[1..], t[1..]);
    }
  }

  /** Create-mode save: the new record has the generated id and precedes the old list. */
  lemma SaveCreate(s: seq<Artwork>, editingId: Option<string>, d: Draft, freshId: string)
    requires !Truthy(editingId) && d.HasRecordFields()
    ensures |Saved(s, editingId, d, freshId)| == |s| + 1
    ensures Saved(s, editingId, d, freshId)[0].id == freshId
    ensures Saved(s, editingId, d, freshId)[1..] == s
    ensures FromArtwork(Saved(s, editingId, d, freshId)[0]) == d.(id := Some(freshId))
  {
  }

  /**
   * Which branch a save takes: no edited id and the empty id both prepend a new record; any
   * other edited id updates the records carrying it.
   */
  lemma SaveBranches(s: seq<Artwork>, d: Draft, freshId: string, id: string)
    requires d.HasRecordFields()
    ensures Saved(s, None, d, freshId) == [NewRecord(d, freshId)] + s
    ensures Saved(s, Some(""), d, freshId) == [NewRecord(d, freshId)] + s
    ensures id != "" ==> Saved(s, Some(id), d, freshId) == UpdateWhere(s, id, d)
  {
  }

  /** Create-mode save from an edit draft (an artwork whose id is `""`) copies it under the new id. */
  lemma NewRecordFromArtwork(a: Artwork, freshId: string)
    ensures NewRecord(FromArtwork(a), freshId) == a.(id := freshId)
  {
  }

  /**
   * Saving keeps ids unique, provided a created record's generated id is not already in use
   * and an edit draft carries the edited id (the dashboard's invariant).
   */
  lemma {:induction false} SavedKeepsUnique(s: seq<Artwork>, editingId: Option<string>, d: Draft, freshId: string)
    requires UniqueIds(s)
    requires !Truthy(editingId) ==> d.HasRecordFields() && !HasId(s, freshId)
    requires editingId.Some? ==> d.id == editingId
    ensures UniqueIds(Saved(s, editingId, d, freshId))
  {
    if Truthy(editingId) {
      UpdateWhereSpec(s, editingId.value, d);
      UpdateWhereKeepsIds(s, editingId.value, d);
      SameIdsKeepUnique(s, UpdateWhere(s, editingId.value, d));
    } else {
      var r := Saved(s, editingId, d, freshId);
      assert r[1..] == s;
    }
  }

  // ---------------------------------------------------------------------------
  // The dashboard's state and its handlers
  // ---------------------------------------------------------------------------

  /** Which of the two screens the dashboard shows. */
  datatype Screen = ListScreen | FormScreen

  class Dashboard {
    /** The site's artwork list (owned by the application, edited only here). */
    var artworks: seq<Artwork>
    var view: Screen
    var editingId: Option<string>
    var formData: Draft

    /**
     * An edit draft carries the edited id, and the form is only shown with a draft that has
     * every record field (so a create-mode save builds a whole record).
     */
    ghost predicate Valid()
      reads this
    {
      (editingId.Some? ==> formData.id == editingId) &&
      (view == FormScreen ==> formData.HasRecordFields())
    }

    /** The dashboard as mounted over the current list: list screen, nothing being edited. */
    constructor (seed: seq<Artwork>)
      ensures Valid()
      ensures artworks == seed && view == ListScreen && editingId == None && formData == EmptyDraft()
    {
      artworks := seed;
      view := ListScreen;
      editingId := None;
      formData := EmptyDraft();
    }

    /** The pencil button of a row: load the record into the form and remember its id. */
    method Edit(art: Artwork)
      modifies this
      ensures Valid()
      ensures formData == FromArtwork(art) && editingId == Some(art.id) && view == FormScreen
      ensures artworks == old(artworks)
    {
      formData := FromArtwork(art);
      editingId := Some(art.id);
      view := FormScreen;
    }

    /** "New Artwork": a fresh draft and no edited id; `currentYear` comes from the clock. */
    method New(currentYear: string)
      modifies this
      ensures Valid()
      ensures formData == NewDraft(currentYear) && editingId == None && view == FormScreen
      ensures artworks == old(artworks)
    {
      formData := NewDraft(currentYear);
      editingId := None;
      view := FormScreen;
    }

    /**
     * Form submission. The title input is `required`, so while the title shown in it is empty
     * the browser refuses the submission and the handler never runs: nothing changes. Otherwise,
     * with a truthy edited id every record with that id is overlaid with the draft; without one
     * the draft is prepended under `freshId`, the generated id. Either way the dashboard returns
     * to the list.
     */
    method Save(freshId: string)
      requires Valid() && view == FormScreen
      modifies this
      ensures Valid()
      ensures editingId == old(editingId) && formData == old(formData)
      ensures !TitleFilled(formData) ==> view == FormScreen && artworks == old(artworks)
      ensures TitleFilled(formData) ==>
        view == ListScreen && artworks == Saved(old(artworks), editingId, formData, freshId)
      ensures UniqueIds(old(artworks)) && (!Truthy(editingId) ==> !HasId(old(artworks), freshId))
        ==> UniqueIds(artworks)
    {
      if !TitleFilled(formData) {
        return;
      }
      if UniqueIds(artworks) && (!Truthy(editingId) ==> !HasId(artworks, freshId)) {
        SavedKeepsUnique(artworks, editingId, formData, freshId);
      }
      if Truthy(editingId) {
        artworks := UpdateWhere(artworks, editingId.value, formData);
      } else {
        artworks := [NewRecord(formData, freshId)] + artworks;
      }
      view := ListScreen;
    }

    /** The trash button of a row: remove every record with `id`, only if the user confirmed. */
    method Delete(id: string, confirmed: bool)
      requires Valid()
      modifies this
      ensures Valid()
      ensures artworks == if confirmed then RemoveId(old(artworks), id) else old(artworks)
      ensures view == old(view) && editingId == old(editingId) && formData == old(formData)
      ensures UniqueIds(old(artworks)) ==> UniqueIds(artworks)
    {
      if confirmed {
        if UniqueIds(artworks) {
          RemoveIdKeepsUnique(artworks, id);
        }
        artworks := RemoveId(artworks, id);
      }
    }

    /** "Back to Dashboard" and "Cancel": return to the list, discarding nothing else. */
    method BackToList()
      requires Valid()
      modifies this
      ensures Valid()
      ensures view == ListScreen
      ensures artworks == old(artworks) && editingId == old(editingId) && formData == old(formData)
    {
      view := ListScreen;
    }

    /** Typing in the title field: sets the title and re-derives the slug from it. */
    method EditTitle(title: string)
      requires Valid()
      modifies this
      ensures Valid()
      ensures formData == old(formData).(title := Some(title), slug := Some(Slug(title)))
      ensures IsSlug(formData.slug.value)
      ensures artworks == old(artworks) && view == old(view) && editingId == old(editingId)
    {
      SlugAt(title);
      formData := formData.(title := Some(title), slug := Some(Slug(title)));
    }

    /** Typing in the year field. */
    method EditYear(year: string)
      requires Valid()
      modifies this
      ensures Valid()
      ensures formData == old(formData).(year := Some(year))
      ensures artworks == old(artworks) && view == old(view) && editingId == old(editingId)
    {
      formData := formData.(year := Some(year));
    }

    /** Typing in the medium field. */
    method EditMedium(medium: string)
      requires Valid()
      modifies this
      ensures Valid()
      ensures formData == old(formData).(medium := Some(medium))
      ensures artworks == old(artworks) && view == old(view) && editingId == old(editingId)
    {
      formData := formData.(medium := Some(medium));
    }

    /** Choosing an availability. */
    method EditAvailability(availability: Availability)
      requires Valid()
      modifies this
      ensures Valid()
      ensures formData == old(formData).(availability := Some(availability))
      ensures artworks == old(artworks) && view == old(view) && editingId == old(editingId)
    {
      formData := formData.(availability := Some(availability));
    }

    /** Typing in the description field. */
    method EditDescription(description: string)
      requires Valid()
      modifies this
      ensures Valid()
      ensures formData == old(formData).(description := Some(description))
      ensures artworks == old(artworks) && view == old(view) && editingId == old(editingId)
    {
      formData := formData.(description := Some(description));
    }

    /** Choosing a collection; the placeholder option sets `""`. */
    method EditCollection(collectionId: string)
      requires Valid()
      modifies this
      ensures Valid()
      ensures formData == old(formData).(collectionId := Some(collectionId))
      ensures artworks == old(artworks) && view == old(view) && editingId == old(editingId)
    {
      formData := formData.(collectionId := Some(collectionId));
    }
  }
}
