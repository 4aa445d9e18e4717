/** The Humidor tab's edits to the store: the add form, "Mark Smoked",
    "Delete" and the journal's "Save Rating", as a store object whose
    collection the methods update, each specified by a function of the old
    collection. */
module Records {
  import opened Cigars
  import opened Journal

  /** Brand and name are required. */
  predicate CanAdd(f: CigarForm)
  {
    f.brand != "" && f.name != ""
  }

  /** The collection after the add form is submitted: one new record at the
      end, numbered one past the current length. */
  function Added(s: seq<Cigar>, f: CigarForm): (r: seq<Cigar>)
    ensures !CanAdd(f) ==> r == s
    ensures CanAdd(f) ==> |r| == |s| + 1 && r[..|s|] == s
    ensures CanAdd(f) ==> r[|s|].id == |s| + 1 && FormOf(r[|s|]) == f
    ensures CanAdd(f) ==> !r[|s|].smoked && r[|s|].rating == 0 && r[|s|].smokedDate == ""
  {
    if CanAdd(f) then s + [NewCigar(|s| + 1, f)] else s
  }

  /** "Mark Smoked" is offered only on a record not yet smoked. */
  predicate CanMarkSmoked(s: seq<Cigar>, i: int)
  {
    0 <= i < |s| && !s[i].smoked
  }

  /** The collection after "Mark Smoked" on the record at position `i`. */
  function MarkedSmoked(s: seq<Cigar>, i: int, today: string): (r: seq<Cigar>)
    ensures |r| == |s|
    ensures forall j :: 0 <= j < |s| && j != i ==> r[j] == s[j]
    ensures CanMarkSmoked(s, i) ==> r[i].smoked && r[i].smokedDate == today
    ensures CanMarkSmoked(s, i) ==> r[i].(smoked := false, smokedDate := s[i].smokedDate) == s[i]
    ensures !CanMarkSmoked(s, i) ==> r == s
  {
    if CanMarkSmoked(s, i) then s[i := s[i].(smoked := true, smokedDate := today)] else s
  }

  /** "Save Rating" is offered only on a smoked record still unrated. */
  predicate CanRate(s: seq<Cigar>, i: int)
  {
    0 <= i < |s| && s[i].smoked && s[i].rating == 0
  }

  /** The collection after "Save Rating" on the record at position `i` with
      the slider's value and the tasting-notes box. */
  function RatedAt(s: seq<Cigar>, i: int, rating: int, tastingNotes: string): (r: seq<Cigar>)
    requires 1 <= rating <= 5
    ensures |r| == |s|
    ensures forall j :: 0 <= j < |s| && j != i ==> r[j] == s[j]
    ensures CanRate(s, i) ==> r[i].rating == rating && 1 <= r[i].rating <= 5
    ensures CanRate(s, i) ==> r[i].notes == if tastingNotes != "" then tastingNotes else s[i].notes
    ensures CanRate(s, i) ==> r[i].(rating := 0, notes := s[i].notes) == s[i]
    ensures !CanRate(s, i) ==> r == s
  {
    if CanRate(s, i) then
      s[i := s[i].(rating := rating, notes := if tastingNotes != "" then tastingNotes else s[i].notes)]
    else s
  }

  /** The collection after "Delete" on a record with id `id`. */
  function WithoutId(s: seq<Cigar>, id: int): seq<Cigar>
  {
    Select(s, (c: Cigar) => c.id != id)
  }

  /** Delete keeps the remaining records in their order. */
  lemma DeleteKeepsOrder(s: seq<Cigar>, id: int)
    ensures IsSubsequence(WithoutId(s, id), s)
    ensures forall c :: c in WithoutId(s, id) ==> c.id != id
  {
    SelectIsSubsequence(s, (c: Cigar) => c.id != id);
  }

  /** Delete removes every copy of a record carrying `id` and keeps every
      copy of every other record. */
  lemma DeleteCount(s: seq<Cigar>, id: int, c: Cigar)
    ensures multiset(WithoutId(s, id))[c] == if c.id != id then multiset(s)[c] else 0
  {
    SelectCount(s, (c: Cigar) => c.id != id, c);
  }

  /** Delete of an id no record has changes nothing. */
  lemma DeleteUnknownId(s: seq<Cigar>, id: int)
    requires forall j :: 0 <= j < |s| ==> s[j].id != id
    ensures WithoutId(s, id) == s
  {
    SelectKeepsAll(s, (c: Cigar) => c.id != id);
  }

  /** The records offered for rating are exactly those `CanRate` admits. */
  lemma CanRateIffOffered(s: seq<Cigar>, i: int)
    requires 0 <= i < |s|
    ensures CanRate(s, i) <==> s[i] in UnratedOf(SmokedOf(s))
  {
    SelectCount(s, IsSmoked, s[i]);
    SelectCount(SmokedOf(s), NoRating, s[i]);
    assert s[i] in multiset(s);
    if s[i] in UnratedOf(SmokedOf(s)) {
      assert s[i] in multiset(UnratedOf(SmokedOf(s)));
    }
  }

  /** Replacing one record changes a selection's length by what the old and
      the new record contribute. */
  lemma SelectUpdate(s: seq<Cigar>, i: int, c: Cigar, p: Cigar -> bool)
    requires 0 <= i < |s|
    ensures |Select(s[i := c], p)| + (if p(s[i]) then 1 else 0)
         == |Select(s, p)| + (if p(c) then 1 else 0)
  {
    assert s == s[..i] + [s[i]] + s[i + 1..];
    assert s[i := c] == s[..i] + [c] + s[i + 1..];
    SelectConcat(s[..i] + [s[i]], s[i + 1..], p);
    SelectConcat(s[..i], [s[i]], p);
    SelectConcat(s[..i] + [c], s[i + 1..], p);
    SelectConcat(s[..i], [c], p);
  }

  /** Marking a record smoked moves it from the humidor to the journal. */
  lemma MarkSmokedMovesToJournal(s: seq<Cigar>, i: int, today: string)
    requires CanMarkSmoked(s, i)
    ensures |SmokedOf(MarkedSmoked(s, i, today))| == |SmokedOf(s)| + 1
    ensures |UnsmokedOf(MarkedSmoked(s, i, today))| == |UnsmokedOf(s)| - 1
    ensures JournalStats(MarkedSmoked(s, i, today)).total == JournalStats(s).total + 1
  {
    var c := s[i].(smoked := true, smokedDate := today);
    SelectUpdate(s, i, c, IsSmoked);
    SelectUpdate(s, i, c, IsUnsmoked);
  }

  predicate SmokedUnrated(c: Cigar) { c.smoked && c.rating == 0 }

  /** Rating a record takes it off the list of records to rate. */
  lemma RateShrinksUnrated(s: seq<Cigar>, i: int, rating: int, tastingNotes: string)
    requires 1 <= rating <= 5 && CanRate(s, i)
    ensures |UnratedOf(SmokedOf(RatedAt(s, i, rating, tastingNotes)))| == |UnratedOf(SmokedOf(s))| - 1
    ensures JournalStats(RatedAt(s, i, rating, tastingNotes)).total == JournalStats(s).total
  {
    var r := RatedAt(s, i, rating, tastingNotes);
    var c := r[i];
    assert r == s[i := c];
    SelectSelect(s, IsSmoked, NoRating, SmokedUnrated);
    SelectSelect(r, IsSmoked, NoRating, SmokedUnrated);
    SelectUpdate(s, i, c, SmokedUnrated);
    SelectUpdate(s, i, c, IsSmoked);
  }

  /** A new record is unsmoked and unrated, so an add keeps every record
      well formed. */
  lemma AddPreservesWellFormed(s: seq<Cigar>, f: CigarForm)
    requires AllWellFormed(s)
    ensures AllWellFormed(Added(s, f))
  {
  }

  /** Marking smoked with a non-empty date (an ISO date always is) keeps
      every record well formed. */
  lemma MarkSmokedPreservesWellFormed(s: seq<Cigar>, i: int, today: string)
    requires AllWellFormed(s) && today != ""
    ensures AllWellFormed(MarkedSmoked(s, i, today))
  {
  }

  /** A slider rating lands on a smoked record, so rating keeps every record
      well formed. */
  lemma RatePreservesWellFormed(s: seq<Cigar>, i: int, rating: int, tastingNotes: string)
    requires AllWellFormed(s) && 1 <= rating <= 5
    ensures AllWellFormed(RatedAt(s, i, rating, tastingNotes))
  {
  }

  /** A delete only drops records, so every remaining one stays well formed. */
  lemma DeletePreservesWellFormed(s: seq<Cigar>, id: int)
    requires AllWellFormed(s)
    ensures AllWellFormed(WithoutId(s, id))
  {
    var r := WithoutId(s, id);
    forall j | 0 <= j < |r| ensures WellFormed(r[j]) {
      assert r[j] in r;
    }
  }

  /** Without deletes the ids are the positions plus one, so an add keeps
      them distinct. */
  lemma AddKeepsPositionalIds(s: seq<Cigar>, f: CigarForm)
    requires forall j :: 0 <= j < |s| ==> s[j].id == j + 1
    ensures forall j :: 0 <= j < |Added(s, f)| ==> Added(s, f)[j].id == j + 1
  {
  }

  /** The in-memory store `data["cigars"]`. */
  class Store {
    var cigars: seq<Cigar>

    /** Every record is as the store's own edits leave it; a file written by
        the page itself always loads in this state. */
    ghost predicate Valid()
      reads this
    {
      AllWellFormed(cigars)
    }

    /** The store as loaded from the data file (empty when there is none). */
    constructor (loaded: seq<Cigar>)
      ensures cigars == loaded
    {
      cigars := loaded;
    }

    /** Submits the add form; `ok` is false when brand or name is missing. */
    method Add(f: CigarForm) returns (ok: bool)
      modifies this
      ensures ok == CanAdd(f)
      ensures cigars == Added(old(cigars), f)
      ensures old(Valid()) ==> Valid()
    {
      if AllWellFormed(cigars) {
        AddPreservesWellFormed(cigars, f);
      }
      ok := f.brand != "" && f.name != "";
      if ok {
        cigars := cigars + [NewCigar(|cigars| + 1, f)];
      }
    }

    /** "Mark Smoked" on the record at position `i`, dated `today`. */
    method MarkSmoked(i: nat, today: string) returns (ok: bool)
      modifies this
      ensures ok == CanMarkSmoked(old(cigars), i)
      ensures cigars == MarkedSmoked(old(cigars), i, today)
      ensures old(Valid()) && today != "" ==> Valid()
    {
      if today != "" && AllWellFormed(cigars) {
        MarkSmokedPreservesWellFormed(cigars, i, today);
      }
      ok := i < |cigars| && !cigars[i].smoked;
      if ok {
        cigars := cigars[i := cigars[i].(smoked := true, smokedDate := today)];
      }
    }

    /** "Save Rating" on the record at position `i`. */
    method Rate(i: nat, rating: int, tastingNotes: string) returns (ok: bool)
      requires 1 <= rating <= 5
      modifies this
      ensures ok == CanRate(old(cigars), i)
      ensures cigars == RatedAt(old(cigars), i, rating, tastingNotes)
      ensures old(Valid()) ==> Valid()
    {
      if AllWellFormed(cigars) {
        RatePreservesWellFormed(cigars, i, rating, tastingNotes);
      }
      ok := i < |cigars| && cigars[i].smoked && cigars[i].rating == 0;
      if ok {
        var c := cigars[i].(rating := rating);
        if tastingNotes != "" {
          c := c.(notes := tastingNotes);
        }
        cigars := cigars[i := c];
      }
    }

    /** "Delete" on a record with id `id`. */
    method Delete(id: int)
      modifies this
      ensures cigars == WithoutId(old(cigars), id)
      ensures old(Valid()) ==> Valid()
    {
      if AllWellFormed(cigars) {
        DeletePreservesWellFormed(cigars, id);
      }
      cigars := WithoutId(cigars, id);
    }
  }

  function PadronForm(): CigarForm
  {
    CigarForm("Padron", "1964 Anniversary", "Robusto", "Maduro", "Nicaragua", "Full",
              3, 12.5, "", "2024-04-20")
  }

  /** A sample session: three adds, a delete of id 1 and another add leave
      the store holding two different records with id 3, so ids are not
      unique. `s` is the store's final collection. */
  method DuplicateIdAfterDelete() returns (s: seq<Cigar>)
    ensures |s| == 3 && s[1].id == 3 && s[2].id == 3 && s[1] != s[2]
  {
    var store := new Store([]);
    var f := PadronForm();
    var ok := store.Add(f);
    ok := store.Add(f.(name := "Family Reserve"));
    ok := store.Add(f.(name := "Damaso"));
    assert store.cigars[0].id == 1 && store.cigars[1].id == 2 && store.cigars[2].id == 3;
    ghost var three := store.cigars;
    store.Delete(1);
    assert store.cigars == three[1..] by {
      var p := (c: Cigar) => c.id != 1;
      assert Select(three[2..], p) == [three[2]] + Select(three[3..], p);
      assert Select(three[1..], p) == [three[1]] + Select(three[2..], p);
    }
    ok := store.Add(f.(name := "Principe"));
    s := store.cigars;
  }

  /** A sample session: add a cigar, mark it smoked on 2024-05-01 and rate
      it 4 with notes. The store then holds exactly that record, and its
      journal counts one smoked record, averages 4 over one rating and has
      nothing left to rate. `s` is the store's final collection. */
  method TastingSession() returns (s: seq<Cigar>, c: Cigar, st: Stats)
    ensures s == [c] && st == JournalStats(s)
    ensures c.smoked && c.smokedDate == "2024-05-01"
    ensures c.rating == 4 && c.notes == "great burn" && FormOf(c).brand == "Padron"
    ensures st == Stats(1, Mean(4, 1), 0)
  {
    var store := new Store([]);
    var ok := store.Add(PadronForm());
    ok := store.MarkSmoked(0, "2024-05-01");
    ok := store.Rate(0, 4, "great burn");
    c := store.cigars[0];
    assert store.cigars == [c];
    assert SmokedOf([c]) == [c];
    assert RatedOf([c]) == [c];
    assert RatingSum([c]) == 4;
    s := store.cigars;
    st := JournalStats(s);
  }
}
