/** Listing the playlists of a database and picking the one the `export`
    command's `--playlist` option names. */
module Lookup {
  import opened Rows
  import opened Query
  import opened Text

  /** The Tag type that marks a playlist. */
  const PlaylistType := 2

  /** A row of `select TagId, Name from Tag where Type=2`. */
  datatype Playlist = Playlist(TagId: int, Name: string)

  /** The playlists of `db`, in table order. */
  function FindPlaylists(db: Tables): (r: seq<Playlist>)
    ensures forall p :: p in r <==>
              exists t :: t in db.Tag && t.Type == PlaylistType && p == Playlist(t.TagId, t.Name)
  {
    var keep := (t: TagRow) => t.Type == PlaylistType;
    WhereContents(db.Tag, keep);
    Project(Where(db.Tag, keep), (t: TagRow) => Playlist(t.TagId, t.Name))
  }

  /** The condition the command's `find` callback tests: the option is
      loosely equal to the key, or equal to the name ignoring case. */
  predicate Matches(option: string, p: Playlist) {
    LooselyEquals(option, p.TagId) || SameIgnoringCase(option, p.Name)
  }

  /** Position `i` holds a match and no earlier position does. */
  predicate FirstMatchAt(playlists: seq<Playlist>, option: string, i: int) {
    && 0 <= i < |playlists|
    && Matches(option, playlists[i])
    && forall j :: 0 <= j < i ==> !Matches(option, playlists[j])
  }

  /** `playlists.find(...)`: the first playlist that matches, if any. */
  function FirstMatch(playlists: seq<Playlist>, option: string): (r: Option<Playlist>)
    ensures r.None? <==> forall i :: 0 <= i < |playlists| ==> !Matches(option, playlists[i])
    ensures r.Some? ==> exists i :: FirstMatchAt(playlists, option, i) && playlists[i] == r.value
  {
    if |playlists| == 0 then None
    else if Matches(option, playlists[0]) then Some(playlists[0])
    else
      var r := FirstMatch(playlists[1..], option);
      assert forall i :: FirstMatchAt(playlists[1..], option, i) ==>
               FirstMatchAt(playlists, option, i + 1) && playlists[i + 1] == playlists[1..][i];
      r
  }

  /** Tag row `t` is a playlist that `option` names. */
  predicate NamesPlaylistRow(option: string, t: TagRow) {
    t.Type == PlaylistType && Matches(option, Playlist(t.TagId, t.Name))
  }

  /** Row `i` of `tags` is the first playlist row, in table order, that
      `option` names. */
  predicate FirstNamedRowAt(tags: seq<TagRow>, option: string, i: int) {
    && 0 <= i < |tags|
    && NamesPlaylistRow(option, tags[i])
    && forall j :: 0 <= j < i ==> !NamesPlaylistRow(option, tags[j])
  }

  /** The playlist list is built row by row in table order: the first Tag
      row contributes its entry (if it is a playlist) ahead of the rest. */
  lemma FindPlaylistsCons(db: Tables)
    requires |db.Tag| > 0
    ensures FindPlaylists(db) ==
              (if db.Tag[0].Type == PlaylistType then [Playlist(db.Tag[0].TagId, db.Tag[0].Name)] else [])
              + FindPlaylists(db.(Tag := db.Tag[1..]))
  {
    var keep := (t: TagRow) => t.Type == PlaylistType;
    var f := (t: TagRow) => Playlist(t.TagId, t.Name);
    var w := Where(db.Tag[1..], keep);
    if keep(db.Tag[0]) {
      assert ([db.Tag[0]] + w)[1..] == w;
    } else {
      assert [] + w == w;
    }
  }

  /** `find` passes over a leading playlist that does not match. */
  lemma FirstMatchSkips(p: Playlist, rest: seq<Playlist>, option: string)
    requires !Matches(option, p)
    ensures FirstMatch([p] + rest, option) == FirstMatch(rest, option)
  {
    assert ([p] + rest)[1..] == rest;
  }

  /** A leading Tag row that is not a playlist the option names changes
      nothing about what `find` returns. */
  lemma FirstMatchPassesRow(db: Tables, option: string)
    requires |db.Tag| > 0 && !NamesPlaylistRow(option, db.Tag[0])
    ensures FirstMatch(FindPlaylists(db), option) == FirstMatch(FindPlaylists(db.(Tag := db.Tag[1..])), option)
  {
    var t := db.Tag[0];
    var rest := FindPlaylists(db.(Tag := db.Tag[1..]));
    FindPlaylistsCons(db);
    if t.Type == PlaylistType {
      var p := Playlist(t.TagId, t.Name);
      assert FindPlaylists(db) == [p] + rest;
      FirstMatchSkips(p, rest, option);
    } else {
      assert FindPlaylists(db) == [] + rest == rest;
    }
  }

  /** Behind a leading row the option does not name, the first named row
      moves one place on. */
  lemma FirstNamedRowShifts(tags: seq<TagRow>, option: string, i: int)
    requires |tags| > 0 && !NamesPlaylistRow(option, tags[0])
    requires FirstNamedRowAt(tags[1..], option, i)
    ensures FirstNamedRowAt(tags, option, i + 1) && tags[i + 1] == tags[1..][i]
  {
    forall j | 0 <= j < i + 1
      ensures !NamesPlaylistRow(option, tags[j])
    {
      if j > 0 {
        assert tags[j] == tags[1..][j - 1];
      }
    }
  }

  /** The playlist `find` returns is the first playlist row of the Tag table
      that the option names. */
  lemma {:induction false} FirstMatchInTableOrder(db: Tables, option: string)
    ensures var r := FirstMatch(FindPlaylists(db), option);
      r.Some? ==> exists i :: FirstNamedRowAt(db.Tag, option, i)
                    && r.value == Playlist(db.Tag[i].TagId, db.Tag[i].Name)
    decreases |db.Tag|
  {
    if |db.Tag| > 0 {
      var rest := db.(Tag := db.Tag[1..]);
      if NamesPlaylistRow(option, db.Tag[0]) {
        FindPlaylistsCons(db);
        assert FirstNamedRowAt(db.Tag, option, 0);
      } else {
        FirstMatchPassesRow(db, option);
        FirstMatchInTableOrder(rest, option);
        var r := FirstMatch(FindPlaylists(rest), option);
        if r.Some? {
          var i :| FirstNamedRowAt(rest.Tag, option, i)
                   && r.value == Playlist(rest.Tag[i].TagId, rest.Tag[i].Name);
          FirstNamedRowShifts(db.Tag, option, i);
        }
      }
    }
  }

  /** The playlist the option selects. An absent option and the empty string
      (which JavaScript treats as false) select nothing; otherwise the first
      playlist row in table order that the option names is selected. */
  function LookupPlaylist(db: Tables, option: Option<string>): (r: Option<Playlist>)
    ensures option == None || option == Some("") ==> r == None
    ensures r.Some? ==> option.Some?
    ensures r.Some? ==> exists i :: FirstNamedRowAt(db.Tag, option.value, i)
                          && r.value == Playlist(db.Tag[i].TagId, db.Tag[i].Name)
    ensures r.None? && option.Some? && option.value != "" ==>
              forall t :: t in db.Tag ==> !NamesPlaylistRow(option.value, t)
  {
    match option
    case None => None
    case Some(o) =>
      if o == "" then None
      else
        FirstMatchInTableOrder(db, o);
        var r := FirstMatch(FindPlaylists(db), o);
        assert r.None? ==> forall t :: t in db.Tag ==> !NamesPlaylistRow(o, t) by {
          if r.None? {
            forall t | t in db.Tag && t.Type == PlaylistType
              ensures !Matches(o, Playlist(t.TagId, t.Name))
            {
              var p := Playlist(t.TagId, t.Name);
              assert p in FindPlaylists(db);
            }
          }
        }
        r
  }

  /** Giving a playlist's key, written in decimal, as the option always
      finds a playlist (the first match, which is that one unless an earlier
      playlist also matches). */
  lemma LookupByKeyFinds(db: Tables, t: TagRow)
    requires t in db.Tag && t.Type == PlaylistType
    ensures LookupPlaylist(db, Some(ShowInt(t.TagId))).Some?
  {
    ParseShowInt(t.TagId);
    var o := ShowInt(t.TagId);
    assert Matches(o, Playlist(t.TagId, t.Name));
  }

  /** Likewise for a playlist's name in any mix of case. */
  lemma LookupByNameFinds(db: Tables, t: TagRow, option: string)
    requires t in db.Tag && t.Type == PlaylistType
    requires option != "" && Lower(option) == Lower(t.Name)
    ensures LookupPlaylist(db, Some(option)).Some?
  {
    assert Matches(option, Playlist(t.TagId, t.Name));
  }
}
