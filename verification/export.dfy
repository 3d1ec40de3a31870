/** The playlist export: starting from one Tag key, follow the fixed
    foreign-key chain Tag -> TagMap -> PlaylistItem (and PlaylistItemChild)
    -> PlaylistMedia -> Location, one query per table, each query filtered by
    the ids collected from the previous one.

    An id list is the JavaScript array of the collected column, nulls
    included; `k in (ids)` is SQL's IN, under which a null entry matches no
    key. */
module Export {
  import opened Rows
  import opened Query

  /** `res.map(item => item.PlaylistItemId)` over the selected TagMap rows. */
  function PlaylistItemIds(maps: seq<TagMapRow>): seq<Option<int>> {
    Project(maps, (m: TagMapRow) => m.PlaylistItemId)
  }

  /** `res.map(item => item.PlaylistMediaId)` over the selected PlaylistItem rows. */
  function PlaylistMediaIds(items: seq<PlaylistItemRow>): seq<int> {
    Project(items, (p: PlaylistItemRow) => p.PlaylistMediaId)
  }

  /** `res.map(item => item.LocationId)` over the selected PlaylistMedia rows. */
  function LocationIds(media: seq<PlaylistMediaRow>): seq<Option<int>> {
    Project(media, (pm: PlaylistMediaRow) => pm.LocationId)
  }

  /** Some TagMap row refers to PlaylistItem `id`. */
  ghost predicate ItemReferenced(maps: seq<TagMapRow>, id: int) {
    exists m :: m in maps && m.PlaylistItemId == Some(id)
  }

  /** Some PlaylistItem row refers to PlaylistMedia `id`. */
  ghost predicate MediaReferenced(items: seq<PlaylistItemRow>, id: int) {
    exists p :: p in items && p.PlaylistMediaId == id
  }

  /** Some PlaylistMedia row refers to Location `id`. */
  ghost predicate LocationReferenced(media: seq<PlaylistMediaRow>, id: int) {
    exists pm :: pm in media && pm.LocationId == Some(id)
  }

  /** `select * from Tag where TagId=${tagId}`. */
  function TagsOf(tags: seq<TagRow>, tagId: int): (r: seq<TagRow>)
    ensures forall t :: t in r <==> t in tags && t.TagId == tagId
    ensures forall t :: multiset(r)[t] == if t.TagId == tagId then multiset(tags)[t] else 0
    ensures multiset(r) <= multiset(tags)
  {
    var keep := (t: TagRow) => t.TagId == tagId;
    WhereContents(tags, keep);
    Where(tags, keep)
  }

  /** `select * from TagMap where TagId=${tagId}`. */
  function TagMapsOf(maps: seq<TagMapRow>, tagId: int): (r: seq<TagMapRow>)
    ensures forall m :: m in r <==> m in maps && m.TagId == tagId
    ensures forall m :: multiset(r)[m] == if m.TagId == tagId then multiset(maps)[m] else 0
    ensures multiset(r) <= multiset(maps)
  {
    var keep := (m: TagMapRow) => m.TagId == tagId;
    WhereContents(maps, keep);
    Where(maps, keep)
  }

  /** `select * from PlaylistItem where PlaylistItemId in (${playlistItemIds})`,
      the ids being those of the selected TagMap rows `maps`. */
  function ItemsFor(items: seq<PlaylistItemRow>, maps: seq<TagMapRow>): (r: seq<PlaylistItemRow>)
    ensures forall p :: p in r <==> p in items && ItemReferenced(maps, p.PlaylistItemId)
    ensures forall p :: multiset(r)[p] ==
              if ItemReferenced(maps, p.PlaylistItemId) then multiset(items)[p] else 0
    ensures multiset(r) <= multiset(items)
  {
    var ids := PlaylistItemIds(maps);
    var keep := (p: PlaylistItemRow) => Some(p.PlaylistItemId) in ids;
    WhereContents(items, keep);
    Where(items, keep)
  }

  /** `select * from PlaylistItemChild where PlaylistItemId in (${playlistItemIds})`:
      the same id list as for PlaylistItem, taken from the TagMap rows and not
      from the PlaylistItem rows actually found. */
  function ChildrenFor(children: seq<PlaylistItemChildRow>, maps: seq<TagMapRow>): (r: seq<PlaylistItemChildRow>)
    ensures forall c :: c in r <==> c in children && ItemReferenced(maps, c.PlaylistItemId)
    ensures forall c :: multiset(r)[c] ==
              if ItemReferenced(maps, c.PlaylistItemId) then multiset(children)[c] else 0
    ensures multiset(r) <= multiset(children)
  {
    var ids := PlaylistItemIds(maps);
    var keep := (c: PlaylistItemChildRow) => Some(c.PlaylistItemId) in ids;
    WhereContents(children, keep);
    Where(children, keep)
  }

  /** `select * from PlaylistMedia where PlaylistMediaId in (${playlistMediaIds})`,
      the ids being those of the selected PlaylistItem rows `items`. */
  function MediaFor(media: seq<PlaylistMediaRow>, items: seq<PlaylistItemRow>): (r: seq<PlaylistMediaRow>)
    ensures forall pm :: pm in r <==> pm in media && MediaReferenced(items, pm.PlaylistMediaId)
    ensures forall pm :: multiset(r)[pm] ==
              if MediaReferenced(items, pm.PlaylistMediaId) then multiset(media)[pm] else 0
    ensures multiset(r) <= multiset(media)
  {
    var ids := PlaylistMediaIds(items);
    var keep := (pm: PlaylistMediaRow) => pm.PlaylistMediaId in ids;
    WhereContents(media, keep);
    Where(media, keep)
  }

  /** `select * from Location where LocationId in (${locationIds})`,
      the ids being those of the selected PlaylistMedia rows `media`. */
  function LocationsFor(locations: seq<LocationRow>, media: seq<PlaylistMediaRow>): (r: seq<LocationRow>)
    ensures forall l :: l in r <==> l in locations && LocationReferenced(media, l.LocationId)
    ensures forall l :: multiset(r)[l] ==
              if LocationReferenced(media, l.LocationId) then multiset(locations)[l] else 0
    ensures multiset(r) <= multiset(locations)
  {
    var ids := LocationIds(media);
    var keep := (l: LocationRow) => Some(l.LocationId) in ids;
    WhereContents(locations, keep);
    Where(locations, keep)
  }

  /** Loads the playlist with key `tagId` and every row it depends on into a
      six-table document. Each table of the document holds rows of the same
      table of `db`, and exactly those the chain reaches. */
  function ExportPlaylist(db: Tables, tagId: int): (d: Tables)
    ensures forall t :: t in d.Tag <==> t in db.Tag && t.TagId == tagId
    ensures forall m :: m in d.TagMap <==> m in db.TagMap && m.TagId == tagId
    ensures forall p :: p in d.PlaylistItem <==>
              p in db.PlaylistItem && ItemReferenced(d.TagMap, p.PlaylistItemId)
    ensures forall c :: c in d.PlaylistItemChild <==>
              c in db.PlaylistItemChild && ItemReferenced(d.TagMap, c.PlaylistItemId)
    ensures forall pm :: pm in d.PlaylistMedia <==>
              pm in db.PlaylistMedia && MediaReferenced(d.PlaylistItem, pm.PlaylistMediaId)
    ensures forall l :: l in d.Location <==>
              l in db.Location && LocationReferenced(d.PlaylistMedia, l.LocationId)
    // No row is added or duplicated.
    ensures multiset(d.Tag) <= multiset(db.Tag)
    ensures multiset(d.TagMap) <= multiset(db.TagMap)
    ensures multiset(d.PlaylistItem) <= multiset(db.PlaylistItem)
    ensures multiset(d.PlaylistItemChild) <= multiset(db.PlaylistItemChild)
    ensures multiset(d.PlaylistMedia) <= multiset(db.PlaylistMedia)
    ensures multiset(d.Location) <= multiset(db.Location)
  {
    var maps := TagMapsOf(db.TagMap, tagId);
    var items := ItemsFor(db.PlaylistItem, maps);
    var media := MediaFor(db.PlaylistMedia, items);
    EmptyTables.(
      Tag := TagsOf(db.Tag, tagId),
      TagMap := maps,
      PlaylistItem := items,
      PlaylistItemChild := ChildrenFor(db.PlaylistItemChild, maps),
      PlaylistMedia := media,
      Location := LocationsFor(db.Location, media))
  }

  /** When no TagMap row of the playlist carries a PlaylistItemId (in
      particular when no TagMap row references the tag at all), every id list
      downstream is empty and so are the four dependent tables. */
  lemma ExportCascadesEmpty(db: Tables, tagId: int)
    requires forall m :: m in db.TagMap && m.TagId == tagId ==> m.PlaylistItemId == None
    ensures var d := ExportPlaylist(db, tagId);
      && d.PlaylistItem == [] && d.PlaylistItemChild == []
      && d.PlaylistMedia == [] && d.Location == []
  {
    var d := ExportPlaylist(db, tagId);
    assert forall p :: p !in d.PlaylistItem;
    assert forall c :: c !in d.PlaylistItemChild;
    assert forall pm :: pm !in d.PlaylistMedia;
    assert forall l :: l !in d.Location;
  }

  /** Every PlaylistItem a TagMap row of `maps` names is a row of `items`. */
  ghost predicate TagMapRefsResolve(maps: seq<TagMapRow>, items: seq<PlaylistItemRow>) {
    forall m, k :: m in maps && m.PlaylistItemId == Some(k) ==>
      exists p :: p in items && p.PlaylistItemId == k
  }

  /** Every PlaylistItem a row of `children` names is a row of `items`. */
  ghost predicate ChildRefsResolve(children: seq<PlaylistItemChildRow>, items: seq<PlaylistItemRow>) {
    forall c :: c in children ==> exists p :: p in items && p.PlaylistItemId == c.PlaylistItemId
  }

  /** Every PlaylistMedia a row of `items` names is a row of `media`. */
  ghost predicate ItemRefsResolve(items: seq<PlaylistItemRow>, media: seq<PlaylistMediaRow>) {
    forall p :: p in items ==> exists pm :: pm in media && pm.PlaylistMediaId == p.PlaylistMediaId
  }

  /** Every Location a row of `media` names is a row of `locations`. */
  ghost predicate MediaRefsResolve(media: seq<PlaylistMediaRow>, locations: seq<LocationRow>) {
    forall pm, k :: pm in media && pm.LocationId == Some(k) ==>
      exists l :: l in locations && l.LocationId == k
  }

  /** The chain of references the export follows is intact: every reference
      along it resolves to a row of the same tables. */
  ghost predicate ChainIntact(db: Tables) {
    && TagMapRefsResolve(db.TagMap, db.PlaylistItem)
    && ChildRefsResolve(db.PlaylistItemChild, db.PlaylistItem)
    && ItemRefsResolve(db.PlaylistItem, db.PlaylistMedia)
    && MediaRefsResolve(db.PlaylistMedia, db.Location)
  }

  /** The other reading of the PlaylistItemChild query: the children of the
      PlaylistItem rows actually found. */
  function ChildrenOfItems(children: seq<PlaylistItemChildRow>, items: seq<PlaylistItemRow>): seq<PlaylistItemChildRow> {
    var ids := Project(items, (p: PlaylistItemRow) => p.PlaylistItemId);
    Where(children, (c: PlaylistItemChildRow) => c.PlaylistItemId in ids)
  }

  /** When every PlaylistItem the TagMap rows name exists, selecting the
      children against the TagMap-derived id list gives exactly the children
      of the PlaylistItem rows found, in the same order. */
  lemma ChildrenReadingsAgree(children: seq<PlaylistItemChildRow>, items: seq<PlaylistItemRow>, maps: seq<TagMapRow>)
    requires TagMapRefsResolve(maps, items)
    ensures ChildrenFor(children, maps) == ChildrenOfItems(children, ItemsFor(items, maps))
  {
    var found := ItemsFor(items, maps);
    var mapIds := PlaylistItemIds(maps);
    var foundIds := Project(found, (p: PlaylistItemRow) => p.PlaylistItemId);
    var a := (c: PlaylistItemChildRow) => Some(c.PlaylistItemId) in mapIds;
    var b := (c: PlaylistItemChildRow) => c.PlaylistItemId in foundIds;
    forall i | 0 <= i < |children|
      ensures a(children[i]) == b(children[i])
    {
      var k := children[i].PlaylistItemId;
      if Some(k) in mapIds {
        var m :| m in maps && m.PlaylistItemId == Some(k);
        var p :| p in items && p.PlaylistItemId == k;
        assert p in found;
      }
      if k in foundIds {
        var p :| p in found && p.PlaylistItemId == k;
        assert ItemReferenced(maps, k);
      }
    }
    WhereSamePred(children, a, b);
  }

  /** Selecting TagMap rows and then the PlaylistItem rows they name keeps
      every TagMap reference resolved. */
  lemma TagMapRefsStayResolved(maps: seq<TagMapRow>, selected: seq<TagMapRow>, items: seq<PlaylistItemRow>)
    requires TagMapRefsResolve(maps, items)
    requires forall m :: m in selected ==> m in maps
    ensures TagMapRefsResolve(selected, ItemsFor(items, selected))
  {
    forall m, k | m in selected && m.PlaylistItemId == Some(k)
      ensures exists p :: p in ItemsFor(items, selected) && p.PlaylistItemId == k
    {
      var p :| p in items && p.PlaylistItemId == k;
      assert ItemReferenced(selected, p.PlaylistItemId);
    }
  }

  /** Children and items are selected with the same id list, so the parent
      of an exported child is exported whenever it exists. */
  lemma ChildRefsStayResolved(children: seq<PlaylistItemChildRow>, items: seq<PlaylistItemRow>, maps: seq<TagMapRow>)
    requires ChildRefsResolve(children, items)
    ensures ChildRefsResolve(ChildrenFor(children, maps), ItemsFor(items, maps))
  {
    forall c | c in ChildrenFor(children, maps)
      ensures exists p :: p in ItemsFor(items, maps) && p.PlaylistItemId == c.PlaylistItemId
    {
      var p :| p in items && p.PlaylistItemId == c.PlaylistItemId;
      assert p in ItemsFor(items, maps);
    }
  }

  /** Selecting the PlaylistMedia rows that exported items name keeps every
      item reference resolved. */
  lemma ItemRefsStayResolved(items: seq<PlaylistItemRow>, selected: seq<PlaylistItemRow>, media: seq<PlaylistMediaRow>)
    requires ItemRefsResolve(items, media)
    requires forall p :: p in selected ==> p in items
    ensures ItemRefsResolve(selected, MediaFor(media, selected))
  {
    forall p | p in selected
      ensures exists pm :: pm in MediaFor(media, selected) && pm.PlaylistMediaId == p.PlaylistMediaId
    {
      var pm :| pm in media && pm.PlaylistMediaId == p.PlaylistMediaId;
      assert MediaReferenced(selected, pm.PlaylistMediaId);
    }
  }

  /** Selecting the Location rows that exported media name keeps every
      media reference resolved. */
  lemma MediaRefsStayResolved(media: seq<PlaylistMediaRow>, selected: seq<PlaylistMediaRow>, locations: seq<LocationRow>)
    requires MediaRefsResolve(media, locations)
    requires forall pm :: pm in selected ==> pm in media
    ensures MediaRefsResolve(selected, LocationsFor(locations, selected))
  {
    forall pm, k | pm in selected && pm.LocationId == Some(k)
      ensures exists l :: l in LocationsFor(locations, selected) && l.LocationId == k
    {
      var l :| l in locations && l.LocationId == k;
      assert LocationReferenced(selected, l.LocationId);
    }
  }

  /** An intact chain stays intact in the document: every reference an
      exported row makes along the chain resolves to an exported row. */
  lemma ExportKeepsChainIntact(db: Tables, tagId: int)
    requires ChainIntact(db)
    ensures ChainIntact(ExportPlaylist(db, tagId))
  {
    var maps := TagMapsOf(db.TagMap, tagId);
    var items := ItemsFor(db.PlaylistItem, maps);
    var media := MediaFor(db.PlaylistMedia, items);
    TagMapRefsStayResolved(db.TagMap, maps, db.PlaylistItem);
    ChildRefsStayResolved(db.PlaylistItemChild, db.PlaylistItem, maps);
    ItemRefsStayResolved(db.PlaylistItem, items, db.PlaylistMedia);
    MediaRefsStayResolved(db.PlaylistMedia, media, db.Location);
  }

  /** Exporting the same playlist from an exported document gives the
      document back: it already holds exactly the rows the chain reaches. */
  lemma ExportIdempotent(db: Tables, tagId: int)
    ensures ExportPlaylist(ExportPlaylist(db, tagId), tagId) == ExportPlaylist(db, tagId)
  {
    var d := ExportPlaylist(db, tagId);
    var maps := d.TagMap;
    WhereIdempotent(db.Tag, (t: TagRow) => t.TagId == tagId);
    WhereIdempotent(db.TagMap, (m: TagMapRow) => m.TagId == tagId);
    var itemIds := PlaylistItemIds(maps);
    WhereIdempotent(db.PlaylistItem, (p: PlaylistItemRow) => Some(p.PlaylistItemId) in itemIds);
    WhereIdempotent(db.PlaylistItemChild, (c: PlaylistItemChildRow) => Some(c.PlaylistItemId) in itemIds);
    var mediaIds := PlaylistMediaIds(d.PlaylistItem);
    WhereIdempotent(db.PlaylistMedia, (pm: PlaylistMediaRow) => pm.PlaylistMediaId in mediaIds);
    var locationIds := LocationIds(d.PlaylistMedia);
    WhereIdempotent(db.Location, (l: LocationRow) => Some(l.LocationId) in locationIds);
  }

  /** The export follows a TagMap row's PlaylistItemId but never its
      LocationId: a Location that the playlist's TagMap row names, and that
      no PlaylistMedia row of the database names, is left out of the
      document, while the TagMap row naming it is exported. */
  lemma TagMapLocationNotFollowed(db: Tables, tagId: int, m: TagMapRow, l: LocationRow)
    requires m in db.TagMap && m.TagId == tagId && m.LocationId == Some(l.LocationId)
    requires forall pm :: pm in db.PlaylistMedia ==> pm.LocationId != Some(l.LocationId)
    ensures m in ExportPlaylist(db, tagId).TagMap
    ensures l !in ExportPlaylist(db, tagId).Location
  {
  }

  /** An instance: a playlist whose only TagMap row names Location 7 exports
      that row and no Location at all. */
  lemma TagMapLocationExample()
    ensures
      var loc := LocationRow(7, None, None, None, None, None, None, None, 0);
      var db := EmptyTables.(Tag := [TagRow(1, 2, "Trip")],
                             TagMap := [TagMapRow(1, None, Some(7), 1)],
                             Location := [loc]);
      var d := ExportPlaylist(db, 1);
      d.TagMap == db.TagMap && d.Location == []
  {
    var db := EmptyTables.(Tag := [TagRow(1, 2, "Trip")],
                           TagMap := [TagMapRow(1, None, Some(7), 1)],
                           Location := [LocationRow(7, None, None, None, None, None, None, None, 0)]);
    ExportCascadesEmpty(db, 1);
  }
}
