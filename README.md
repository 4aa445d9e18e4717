# Humidor record store, in Dafny

The humidor app is a one-page personal cigar journal. Its working state is a
list of cigar records, `data["cigars"]`. The page's widget callbacks edit that
list in place: the add form appends a record, "Mark Smoked" and "Save Rating"
change fields of one record, and "Delete" rebinds the list to a filtered copy.
The page also reads the list in three ways:

- the Humidor tab shows it through a view (All / In Humidor / Smoked) and a
  case-insensitive search over "brand name";
- the Tasting Journal tab shows statistics over the smoked records;
- the same tab lists the smoked records newest first and offers the unrated
  ones for rating.

The project lifts that logic out of the UI:

- `text.dfy` (module `Text`): ASCII case folding, substring search and
  lexicographic string order. These stand in for Python's `str.lower`, `in`
  and `<` on `str`.
- `cigars.dfy` (module `Cigars`): the `Cigar` record, the add form's
  `CigarForm`, and `Select`, the list comprehension that every filter and
  the delete use, with its lemmas.
- `humidor.dfy` (module `Humidor`): the view radio, the search and the
  listing they produce.
- `journal.dfy` (module `Journal`): the smoked, rated and unrated
  selections, the statistics as integer sums and counts, and the journal's
  stable descending sort by smoked date.
- `records.dfy` (module `Records`): class `Store`. It holds `cigars: seq<Cigar>`
  and has one method per edit. Each method is specified by a function of the
  old collection (`Added`, `MarkedSmoked`, `RatedAt`, `WithoutId`). The lemmas
  about those functions state what an edit changes and what it leaves alone.
  Two sample sessions, `DuplicateIdAfterDelete` and `TastingSession`, drive
  the store's own methods and state the collection they end with. The
  store's invariant `Valid()` says every record is well formed. Each edit
  keeps it; mark smoked needs a non-empty date to do so.

"Today" and every form value are parameters. Mark smoked and rate address a
record by its position in the collection, because the source assigns to the
very dict it is iterating over. Delete addresses records by id, as the source
does.

Facts about app.py the model makes explicit:

- Ids are `len(data["cigars"]) + 1` (app.py:72). A delete followed by an add
  therefore repeats an id, as `DuplicateIdAfterDelete` shows. A later delete
  of that id removes every record carrying it (app.py:123).
- Ratings are integers 1..5 from the slider (app.py:155).
- The search is a plain substring test. The query "don" does not find brand
  "Padron", name "1964", because "padron 1964" contains "dron" but not "don"
  (`PadronDoesNotMatchDon`). "DRON" and "N 19" do find it (`PadronMatches`).

## Model

| member | source | states |
|---|---|---|
| Cigars.NewCigar | app.py:71-78 | the new record carries the given id and exactly the form's values, and is unsmoked, unrated (0) and undated |
| Cigars.Select | app.py:92-96 | a comprehension keeps only records of the input that satisfy the condition, and never more records than the input has |
| Cigars.SelectIsSubsequence | app.py:92-96 | a comprehension keeps records in their original order |
| Cigars.SelectCount | app.py:92-96 | a comprehension keeps every copy of a record that satisfies the condition and no copy of one that does not |
| Cigars.SelectKeepsAll | app.py:95-96 | when every record satisfies the condition, the list is unchanged |
| Cigars.SelectPartition | app.py:92-94 | a condition and its negation split the records between them, by count and by multiset |
| Cigars.SelectSelect | app.py:92-96 | filtering twice equals filtering once by the conjunction |
| Cigars.SelectConcat | app.py:92-96 | filtering distributes over concatenation |
| Humidor.ViewFilterSpec | app.py:90-94 | each view is a subsequence of the collection holding exactly its records: All keeps everything, In Humidor the unsmoked, Smoked the smoked |
| Humidor.ViewPartition | app.py:91-94 | In Humidor and Smoked partition the collection |
| Humidor.MatchesIff | app.py:96 | a record matches exactly when the lower-cased query occurs at some position of lower(brand) + " " + lower(name) |
| Humidor.MatchesIgnoresQueryCase | app.py:96 | the query's letter case does not change the result |
| Humidor.SearchEmptyQuery | app.py:95-96 | an empty query keeps every record |
| Humidor.ListingSpec | app.py:90-96 | the displayed list is a subsequence of the collection holding exactly the records in the view that match the query; an empty query shows the view unchanged, and All with an empty query shows everything |
| Humidor.SearchCommutesWithView | app.py:90-96 | searching before or after choosing the view gives the same list |
| Humidor.PadronMatches | app.py:96 | "DRON" and "N 19" find brand "Padron", name "1964" (the second across the space) |
| Humidor.PadronDoesNotMatchDon | app.py:96 | "don" does not find brand "Padron", name "1964" |
| Text.ContainsIff | app.py:96 | the `in` test on strings holds exactly when the needle occurs at some position |
| Text.LexLessTotal | app.py:167 | distinct date strings are ordered one way or the other |
| Text.LexLessTransitive | app.py:167 | string order is transitive |
| Text.NotLessTransitive | app.py:167 | "not earlier than" is transitive |
| Journal.RatingSumBounds | app.py:140 | ratings in 1..5 sum to between count and 5 * count |
| Journal.StatsCounts | app.py:133-144 | on any collection: total is the number of smoked records; rated and unrated split them; the unrated metric equals the number of records offered for rating; an average exists exactly when some smoked record is rated |
| Journal.StatsAverageBounds | app.py:139-143 | over well-formed records an average has count <= sum <= 5 * count, so a number rather than a dash is shown exactly when a rated record exists |
| Journal.SortSpec | app.py:167 | the journal sort is non-increasing by smoked date and is a permutation of its input |
| Journal.SortStable | app.py:167 | records with the same smoked date keep their stored order |
| Journal.SortedUnique | app.py:167 | two date-descending lists with the same records in order, date by date, are equal |
| Journal.JournalOrderCharacterized | app.py:167 | a listing is the journal exactly when it is non-increasing by date and lists, date by date, the smoked records in stored order |
| Journal.JournalIsPermutation | app.py:167 | the journal holds exactly the smoked records, each as often as stored |
| Journal.LaterDateFirst | app.py:167 | a 2024-06-01 record is listed before a 2024-05-01 one, in either stored order |
| Records.Added | app.py:67-79 | a missing brand or name leaves the collection unchanged; otherwise exactly one record is appended, with id = old length + 1, the form's values and the unsmoked defaults, and earlier records unchanged |
| Records.Store.Add | app.py:67-79 | reports whether brand and name are both given, leaves the collection as `Added` describes, and keeps the store valid |
| Records.MarkedSmoked | app.py:114-117 | only an unsmoked record is affected; it becomes smoked and dated today; no other field and no other record changes |
| Records.Store.MarkSmoked | app.py:114-117 | reports whether the record was eligible, leaves the collection as `MarkedSmoked` describes, and keeps the store valid when the date is non-empty |
| Records.RatedAt | app.py:149-160 | only a smoked, unrated record is affected; its rating becomes the slider value in 1..5; notes are replaced only by non-empty tasting notes; no other field and no other record changes |
| Records.Store.Rate | app.py:152-160 | reports whether the record was eligible, leaves the collection as `RatedAt` describes, and keeps the store valid |
| Records.DeleteKeepsOrder | app.py:123 | what delete leaves is a subsequence of the collection, and no remaining record carries the id |
| Records.DeleteCount | app.py:123 | delete removes every copy of a record carrying the id and keeps every copy of every other record |
| Records.DeleteUnknownId | app.py:123 | delete of an id no record has leaves the collection unchanged |
| Records.Store.Delete | app.py:122-123 | the collection becomes `WithoutId` of the old one, and the store stays valid |
| Records.CanRateIffOffered | app.py:149-157 | a record can be rated exactly when it is in the list of unrated smoked records |
| Records.SelectUpdate | app.py:114-160 | replacing one record changes a filter's length by what the old and new record contribute |
| Records.MarkSmokedMovesToJournal | app.py:114-117 | marking smoked adds one record to the Smoked view and the journal total, and takes one from In Humidor |
| Records.RateShrinksUnrated | app.py:149-160 | rating takes the record off the unrated list and leaves the smoked total alone |
| Records.AddPreservesWellFormed | app.py:71-79 | an add keeps every rating in 0..5, ratings only on smoked records, and smoked dates only on smoked records |
| Records.MarkSmokedPreservesWellFormed | app.py:114-117 | marking smoked with a non-empty date keeps every record well formed |
| Records.RatePreservesWellFormed | app.py:149-160 | rating keeps every record well formed |
| Records.DeletePreservesWellFormed | app.py:123 | delete keeps every record well formed |
| Records.AddKeepsPositionalIds | app.py:72 | while no delete has happened, the ids are positions plus one, so they are distinct |
| Records.DuplicateIdAfterDelete | app.py:72 | after three adds, a delete of id 1 and another add, the store's collection has three records, and the second and third are different records that both have id 3 |
| Records.TastingSession | app.py:133-160 | after add, mark smoked on 2024-05-01 and rate 4 with notes, the store holds exactly that record, showing all three edits, and the journal statistics of that collection are one smoked, average 4 over one rating, none unrated |
| Records.Store.constructor | app.py:29-32 | the store starts from the collection it is given |

## Left out

- `load_data` / `save_data` (app.py:12-20): file and JSON I/O. The constructor takes the loaded collection. Saving after each edit is not modelled.
- `date.today()` and `str(purchase_date)`: clock and formatting. The dates are string parameters.
- `price` is stored as a Dafny `real`. The model does no arithmetic on it, so floating-point behaviour does not arise.
- The average is kept as an integer sum and count. The float division and its `:.1f` formatting (app.py:140-143) are floating point and presentation.
- Case folding: only ASCII letters are folded. Python's `str.lower` also folds non-ASCII letters, which this model does not capture.
- The vocabularies of vitola, wrapper, origin and strength (app.py:23-26) only fill the select boxes. The store never checks them, so these fields are plain strings.
- Streamlit rendering, tabs, columns, messages, `st.rerun`, the star display and the pairings table (app.py:98-112, 187-206): presentation and constant data.
- Unlike the source, the model never holds a second reference to a record. Mark smoked and rate update the record at its position in the collection, which is the same record the source's loop variable names.
- Two records with the same id would get the same widget keys (app.py:115, 122). What Streamlit then does is outside this model. The delete removes every record with the id.
