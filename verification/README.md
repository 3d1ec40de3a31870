# Playlist export of jwapp-playlist-export, in Dafny

The tool finds the JW Library Sign Language app's user database. It lists the playlists in it, which are Tag rows of Type 2. It exports one playlist, with every row it depends on, as a JSON document of six tables. This project models the export path of `main.js` as pure functions over an in-memory database:

- `Rows`: one datatype per table row (Tag, TagMap, PlaylistItem, PlaylistItemChild, PlaylistMedia, Location). It also defines `Tables`, the six tables as sequences. Both the database and the exported document are `Tables`: the document is an object with exactly those six keys.
- `Query`: the two SQL query shapes the export issues. `select * … where P` is the order-preserving filter `Where`, whose result `WhereContents` states. `res.map(item => item.Col)` is `Project`.
- `Export`: `exportPlaylist`. It is one selection per table (`TagsOf`, `TagMapsOf`, `ItemsFor`, `ChildrenFor`, `MediaFor`, `LocationsFor`), and each selection is filtered by the id list the previous one collected. `ExportPlaylist` composes them. The lemmas state what the document is: exactly the rows the foreign-key chain reaches, no row added, the chain stays intact, an empty cascade, and idempotence.
- `Text`: the two string comparisons the playlist lookup uses. JavaScript's loose `==` between the option and a numeric TagId is modelled as "the option spells the key in decimal". `toLowerCase` is modelled on ASCII letters.
- `Lookup`: `findPlaylists` (only Type 2 tags) and the `find` in the `export` command, which picks the first playlist in table order that matches.
- `Discovery`: `findDatabase`'s rule. Exactly one candidate path is returned. Zero or several give `''` and one of two diagnostics.
- `Commands`: the `export` command glued together: find the database, look up the playlist, export it.

Modelling assumptions:
- Every query succeeds.
- Rows come back in table order. SQL gives no order without ORDER BY.
- An id list is the JavaScript array of the collected column, nulls included. `k in (ids)` has SQL's meaning: a null entry matches no key.
- TagMap's `PlaylistItemId` and `LocationId`, and PlaylistMedia's `LocationId`, are nullable (`Option`). The other keys and references are integers.

One might expect PlaylistItemChild rows to be selected against the keys of the PlaylistItem rows found. The code selects them against the PlaylistItemId list of the TagMap rows (main.js:81-87 reuses the list built at main.js:74). The model follows the code (`Export.ChildrenFor`). The two readings agree whenever every such id names an existing PlaylistItem (`Export.ChildrenReadingsAgree`).

The export follows a TagMap row's `PlaylistItemId` but not its `LocationId`. A Location that is bound to the playlist only through TagMap does not go into the document (`Export.TagMapLocationNotFollowed`). The model keeps this behaviour.

## Model

| member | source | states |
|---|---|---|
| `Query.WhereContents` | main.js:76-80 | A `select * … where P` returns each row of the table that satisfies P, unchanged and as often as the table holds it, and no other row. |
| `Query.WhereAppend` | main.js:76-96 | The modelled selection keeps table order: filtering a concatenation of two tables is the concatenation of the two filtered tables. |
| `Query.Project` | main.js:74 | `res.map(item => item.Col)` has one entry per row, in row order. A value occurs in it exactly when some row carries it. |
| `Export.TagsOf` | main.js:67-70 | The exported Tag array is exactly the Tag rows whose TagId is the requested id, with their multiplicities. |
| `Export.TagMapsOf` | main.js:71-75 | The exported TagMap array is exactly the TagMap rows with that TagId, with their multiplicities. |
| `Export.ItemsFor` | main.js:74-80 | A PlaylistItem row is selected exactly when some selected TagMap row names its key. A TagMap row with a null PlaylistItemId selects nothing. |
| `Export.ChildrenFor` | main.js:81-87 | A PlaylistItemChild row is selected exactly when some selected TagMap row names its PlaylistItemId. This is the TagMap-derived list, not the PlaylistItem rows found. |
| `Export.MediaFor` | main.js:88-92 | A PlaylistMedia row is selected exactly when some selected PlaylistItem row names its key. |
| `Export.LocationsFor` | main.js:91-96 | A Location row is selected exactly when some selected PlaylistMedia row names its key. |
| `Export.ExportPlaylist` | main.js:54-99 | Each of the six document tables holds rows of the same database table and no others. Membership in each table is stated in terms of the document's own upstream tables (subset and closure). No table gains a row or a duplicate. |
| `Export.ChildrenReadingsAgree` | main.js:74-87 | When every PlaylistItemId the playlist's TagMap rows carry names an existing PlaylistItem, the children selected against the TagMap-derived list are exactly, and in the same order, the children of the PlaylistItem rows found. |
| `Export.ExportCascadesEmpty` | main.js:71-96 | If no TagMap row of the tag carries a PlaylistItemId, the PlaylistItem, PlaylistItemChild, PlaylistMedia and Location tables of the document are empty. This includes the case where no TagMap row references the tag. |
| `Export.ExportKeepsChainIntact` | main.js:71-96 | If every reference along TagMap→PlaylistItem, PlaylistItemChild→PlaylistItem, PlaylistItem→PlaylistMedia and PlaylistMedia→Location resolves in the database, it also resolves within the document. |
| `Export.ExportIdempotent` | main.js:54-99 | Exporting the same playlist from the exported document gives the document back. It already holds exactly the rows the chain reaches. |
| `Export.TagMapLocationNotFollowed` | main.js:71-96 | For every database: a Location that a TagMap row of the playlist names, and that no PlaylistMedia row names, is not exported, although that TagMap row is. |
| `Export.TagMapLocationExample` | main.js:71-96 | An instance: a playlist whose only TagMap row names Location 7 exports that row and no Location. |
| `Text.ParseInt` | main.js:134 | A string spells an integer exactly when it is an optional sign followed by at least one decimal digit. No sign or `+` gives a non-negative value, and `-` a non-positive one. A name such as `Trip` spells none. |
| `Text.ParsePlus` | main.js:134 | A `+` in front of a digit run spells the same integer as the digits alone, so `"+7"` equals 7. |
| `Text.ParseLeadingZero` | main.js:134 | A leading zero in front of a digit run spells the same integer, so `"007"` equals 7. |
| `Text.ParseNegLeadingZero` | main.js:134 | Likewise behind `-`: `"-07"` spells the same integer as `"-7"`. |
| `Text.ParseNeg` | main.js:134 | A `-` in front of a digit run spells the negation of what the digits alone spell, so `"-0"` and `"-00"` equal 0. With `ParsePlus`, `ParseLeadingZero`, `ParseCanonical` and `ParseShowInt` this fixes the value of every numeral. |
| `Text.ParseCanonical` | main.js:134 | Conversely, a numeral with no `+`, no leading zero and not `-0` is exactly the decimal text of the integer it spells. |
| `Text.ParseShowInt` | main.js:134 | Reading back the decimal text of any key gives that key, so the key's own spelling is loosely equal to it. |
| `Text.Lower` | main.js:135 | Lower-casing keeps the length and leaves no upper-case letter. It changes exactly the upper-case letters, each into its own lower-case letter. |
| `Text.LowerIdempotent` | main.js:135 | Lower-casing twice is lower-casing once. |
| `Lookup.FindPlaylists` | main.js:39-47 | A playlist is listed exactly when some Tag row of Type 2 has that TagId and Name. |
| `Lookup.FindPlaylistsCons` | main.js:42 | The list follows table order: the first Tag row's entry, if it is Type 2, comes ahead of the entries of the remaining rows. |
| `Lookup.FirstMatchInTableOrder` | main.js:130-136 | The playlist `find` returns is the first Type 2 Tag row, in table order, that the option names. |
| `Lookup.FirstMatch` | main.js:132-136 | `find` returns nothing exactly when no playlist matches. Otherwise it returns the playlist at the first position that matches. |
| `Lookup.LookupPlaylist` | main.js:130-141 | No option, or an empty one, finds nothing. A found playlist is the first Type 2 Tag row, in table order, that the option names: no earlier Type 2 row matches. Not found means no Type 2 row matches. |
| `Lookup.LookupByKeyFinds` | main.js:134 | Giving a playlist's key in decimal always finds a playlist. |
| `Lookup.LookupByNameFinds` | main.js:135 | Giving a playlist's name in any ASCII case always finds a playlist. |
| `Discovery.FindDatabase` | main.js:27-33 | One candidate: it is returned with no diagnostic. Zero candidates: `''` and "no database". Several: `''` and "more than one". |
| `Discovery.CommandsProceedOnlyOnSingle` | main.js:106-107 | When candidate paths are non-empty, the commands' `dbPath.length` test passes exactly when there is one candidate, and the path is that candidate. |
| `Commands.ExportCommand` | main.js:126-146 | Without a single database nothing is exported, and the command stops for want of a database exactly when no path is found. With a path, no option, an empty one, or no matching playlist gives "not found", and "not found" means one of these. An export is the document of the first Type 2 Tag row, in table order, that the option names, and it contains that row. |
| `Commands.ExportCommandSucceeds` | main.js:127-142 | With one database and a non-empty option, the command exports exactly when some playlist matches the option. |

## Left out

- Filesystem discovery (`findDatabases`, main.js:15-22): the recursive walk, the platform home directories and the glob. Its result is the parameter `paths`.
- SQLite plumbing: `connect`, `run` and `close`, and the SQL text built by string interpolation. Each query is replaced by its filter meaning, and opening the database at the chosen path is the parameter `db`.
- Query failures: the code assigns the error object to the document table when `res.error` is set. JavaScript also writes a null as an empty entry in `in (…)`. Both are artefacts of the library and of the SQL text. Queries are assumed to succeed.
- As a consequence, a null id among two or more ids gives SQL text such as `in (1,,2)` or `in (1,)`, which SQLite rejects. The source's export of a playlist with a Location-bound TagMap row and any other TagMap row therefore fails, and `res.map` on the error result at main.js:79 throws. The model exports such a playlist normally, treating the null as matching no key.
- Row order: SQL returns rows in an unspecified order. The model assumes table order.
- Columns of the tables beyond the keys and the columns the export and the playlist lookup use. Rows are copied whole, so further columns would travel unchanged.
- `Text.ParseInt`: abstracts JavaScript's `Number()` conversion behind loose `==`. Surrounding whitespace, hexadecimal, exponent and fractional spellings such as `" 12"`, `"0xC"` or `"12.0"`, which JavaScript also finds equal to 12, are not modelled. Nor are the `0b` and `0o` prefixes. `Number()` yields a double, so digit strings beyond 2^53 compare after rounding; the model compares exact integers.
- `Text.Lower`: lower-cases ASCII letters only. Unicode case mapping is not modelled.
- The `list` command's console output, the Commander wiring, `JSON.stringify` and `fs.writeFileSync` (main.js:101-148).
- The import and merge path (key remapping, content-addressed deduplication, name collision resolution) is not part of this model. Its source is not among the files modelled.
