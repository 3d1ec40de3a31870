/** The six tables of the application's user database that a playlist export
    touches, one row datatype per table. Only the key columns and the columns
    the export and the playlist lookup use are modelled; a row is always
    copied whole, so any further column would travel unchanged with it.

    A nullable SQL column is an `Option`. */
module Rows {

  datatype Option<+T> = None | Some(value: T)

  /** Tag: a playlist is a Tag row with Type = 2. */
  datatype TagRow = TagRow(TagId: int, Type: int, Name: string)

  /** TagMap: a join row binding a Tag to a PlaylistItem or to a Location. */
  datatype TagMapRow = TagMapRow(
    TagMapId: int,
    PlaylistItemId: Option<int>,
    LocationId: Option<int>,
    TagId: int)

  datatype PlaylistItemRow = PlaylistItemRow(PlaylistItemId: int, PlaylistMediaId: int)

  datatype PlaylistItemChildRow = PlaylistItemChildRow(PlaylistItemChildId: int, PlaylistItemId: int)

  datatype PlaylistMediaRow = PlaylistMediaRow(
    PlaylistMediaId: int,
    MediaType: int,
    LocationId: Option<int>)

  datatype LocationRow = LocationRow(
    LocationId: int,
    BookNumber: Option<int>,
    ChapterNumber: Option<int>,
    DocumentId: Option<int>,
    Track: Option<int>,
    IssueTagNumber: Option<int>,
    KeySymbol: Option<string>,
    MepsLanguage: Option<int>,
    Type: int)

  /** The six tables, each an ordered sequence of rows. A database and an
      exported document have the same shape: the document is an object with
      exactly these six keys, each holding an array of rows. */
  datatype Tables = Tables(
    Location: seq<LocationRow>,
    PlaylistItem: seq<PlaylistItemRow>,
    PlaylistItemChild: seq<PlaylistItemChildRow>,
    PlaylistMedia: seq<PlaylistMediaRow>,
    Tag: seq<TagRow>,
    TagMap: seq<TagMapRow>)

  /** The document the export starts from before any query has run. */
  const EmptyTables := Tables([], [], [], [], [], [])
}
