/** The `export` command: find the database, pick the playlist the option
    names, export it. Opening the file at the chosen path is not modelled:
    `db` stands for the contents of the database found there. */
module Commands {
  import opened Rows
  import opened Export
  import opened Lookup
  import opened Discovery

  datatype ExportOutcome =
    | NoSingleDatabase            // findDatabase returned ''
    | PlaylistNotFound            // "Could not find your playlist."
    | Exported(document: Tables)  // the document written out

  function ExportCommand(paths: seq<string>, db: Tables, option: Option<string>): (r: ExportOutcome)
    ensures |paths| != 1 ==> r == NoSingleDatabase
    // The command stops for want of a database exactly when no path is found.
    ensures r.NoSingleDatabase? <==> FindDatabase(paths).path == ""
    ensures FindDatabase(paths).path != "" && (
              || option == None || option == Some("")
              || forall t :: t in db.Tag ==> !NamesPlaylistRow(option.value, t))
            ==> r == PlaylistNotFound
    ensures r.PlaylistNotFound? ==> (
              || option == None || option == Some("")
              || forall t :: t in db.Tag ==> !NamesPlaylistRow(option.value, t))
    // The document is the export of the first playlist row of `db`, in table
    // order, that the option names, and it carries that row.
    ensures r.Exported? ==> |paths| == 1 && option.Some?
    ensures r.Exported? ==> exists i :: (
              && FirstNamedRowAt(db.Tag, option.value, i)
              && db.Tag[i] in r.document.Tag
              && r.document == ExportPlaylist(db, db.Tag[i].TagId))
  {
    var dbPath := FindDatabase(paths).path;
    if |dbPath| == 0 then NoSingleDatabase
    else
      match LookupPlaylist(db, option)
      case None => PlaylistNotFound
      case Some(p) => Exported(ExportPlaylist(db, p.TagId))
  }

  /** A playlist named by an option is exported exactly when there is one
      database and some playlist in it matches the option. */
  lemma ExportCommandSucceeds(paths: seq<string>, db: Tables, option: string)
    requires |paths| == 1 && paths[0] != "" && option != ""
    ensures ExportCommand(paths, db, Some(option)).Exported? <==>
              exists t :: t in db.Tag && NamesPlaylistRow(option, t)
  {
    var r := LookupPlaylist(db, Some(option));
    if r.Some? {
      var i :| FirstNamedRowAt(db.Tag, option, i) && r.value == Playlist(db.Tag[i].TagId, db.Tag[i].Name);
      assert db.Tag[i] in db.Tag;
    }
  }
}
