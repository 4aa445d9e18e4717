/** The Humidor tab's list: the "Show" radio (All / In Humidor / Smoked)
    followed by the case-insensitive search over "brand name". */
module Humidor {
  import opened Text
  import opened Cigars

  /** The three choices of the "Show" radio. */
  datatype View = All | InHumidor | Smoked

  predicate InView(v: View, c: Cigar)
  {
    match v
    case All => true
    case InHumidor => !c.smoked
    case Smoked => c.smoked
  }

  /** The records the chosen view shows, before any search. */
  function ViewFilter(v: View, s: seq<Cigar>): seq<Cigar>
  {
    match v
    case All => s
    case InHumidor => UnsmokedOf(s)
    case Smoked => SmokedOf(s)
  }

  /** The text the search box is matched against: brand, one space, name. */
  function SearchKey(c: Cigar): string
  {
    Lower(c.brand + " " + c.name)
  }

  /** A record matches when the lower-cased query occurs in its lower-cased
      search key. */
  predicate Matches(c: Cigar, query: string)
  {
    Contains(SearchKey(c), Lower(query))
  }

  function Search(s: seq<Cigar>, query: string): seq<Cigar>
  {
    Select(s, c => Matches(c, query))
  }

  /** The list the tab displays: the view, then the search when the box is
      not empty. */
  function Listing(s: seq<Cigar>, v: View, query: string): seq<Cigar>
  {
    var shown := ViewFilter(v, s);
    if query != "" then Search(shown, query) else shown
  }

  /** A record the tab shows for this view and query. */
  predicate Shown(v: View, query: string, c: Cigar)
  {
    InView(v, c) && Matches(c, query)
  }

  /** The view keeps, in order, exactly the records belonging to it. */
  lemma ViewFilterSpec(v: View, s: seq<Cigar>)
    ensures IsSubsequence(ViewFilter(v, s), s)
    ensures forall c :: multiset(ViewFilter(v, s))[c] == if InView(v, c) then multiset(s)[c] else 0
  {
    match v
    case All =>
      SubsequenceReflexive(s);
    case InHumidor =>
      SelectIsSubsequence(s, IsUnsmoked);
      forall c ensures multiset(ViewFilter(v, s))[c] == if InView(v, c) then multiset(s)[c] else 0 {
        SelectCount(s, IsUnsmoked, c);
      }
    case Smoked =>
      SelectIsSubsequence(s, IsSmoked);
      forall c ensures multiset(ViewFilter(v, s))[c] == if InView(v, c) then multiset(s)[c] else 0 {
        SelectCount(s, IsSmoked, c);
      }
  }

  /** "In Humidor" and "Smoked" split the collection between them. */
  lemma ViewPartition(s: seq<Cigar>)
    ensures |ViewFilter(InHumidor, s)| + |ViewFilter(Smoked, s)| == |s|
    ensures multiset(ViewFilter(InHumidor, s)) + multiset(ViewFilter(Smoked, s)) == multiset(s)
  {
    SelectPartition(s, IsUnsmoked, IsSmoked);
  }

  /** Matching is the substring test of the search key by the lower-cased
      query; brand and name are folded separately around the space. */
  lemma MatchesIff(c: Cigar, query: string)
    ensures Matches(c, query) <==>
            exists i :: OccursAt(Lower(c.brand) + " " + Lower(c.name), Lower(query), i)
  {
    LowerConcat(c.brand, " " + c.name);
    LowerConcat(" ", c.name);
    assert Lower(" ") == " ";
    assert SearchKey(c) == Lower(c.brand) + " " + Lower(c.name);
    ContainsIff(SearchKey(c), Lower(query));
  }

  /** The case of the query does not matter. */
  lemma MatchesIgnoresQueryCase(c: Cigar, query: string)
    ensures Matches(c, Lower(query)) == Matches(c, query)
  {
    LowerIdempotent(query);
  }

  /** An empty query matches everything. */
  lemma SearchEmptyQuery(s: seq<Cigar>)
    ensures Search(s, "") == s
  {
    forall i | 0 <= i < |s| ensures Matches(s[i], "") {
      ContainsEmpty(SearchKey(s[i]));
    }
    SelectKeepsAll(s, c => Matches(c, ""));
  }

  /** The listing keeps, in their original order, exactly the records that
      are in the view and match the query; an empty query leaves the view as
      it is, and "All" with an empty query is the whole collection. */
  lemma ListingSpec(s: seq<Cigar>, v: View, query: string)
    ensures IsSubsequence(Listing(s, v, query), s)
    ensures forall c :: multiset(Listing(s, v, query))[c] == if Shown(v, query, c) then multiset(s)[c] else 0
    ensures query == "" ==> Listing(s, v, query) == ViewFilter(v, s)
    ensures v == All && query == "" ==> Listing(s, v, query) == s
  {
    var m := (c: Cigar) => Matches(c, query);
    var shown := (c: Cigar) => Shown(v, query, c);
    forall c ensures Matches(c, "") {
      ContainsEmpty(SearchKey(c));
    }
    if query == "" {
      ViewFilterSpec(v, s);
    } else {
      match v
      case All =>
        SelectIsSubsequence(s, m);
        forall c ensures multiset(Listing(s, v, query))[c] == if Shown(v, query, c) then multiset(s)[c] else 0 {
          SelectCount(s, m, c);
        }
      case InHumidor =>
        SelectSelect(s, IsUnsmoked, m, shown);
        SelectIsSubsequence(s, shown);
        forall c ensures multiset(Listing(s, v, query))[c] == if Shown(v, query, c) then multiset(s)[c] else 0 {
          SelectCount(s, shown, c);
        }
      case Smoked =>
        SelectSelect(s, IsSmoked, m, shown);
        SelectIsSubsequence(s, shown);
        forall c ensures multiset(Listing(s, v, query))[c] == if Shown(v, query, c) then multiset(s)[c] else 0 {
          SelectCount(s, shown, c);
        }
    }
  }

  /** Searching first and choosing the view afterwards gives the same list. */
  lemma SearchCommutesWithView(s: seq<Cigar>, v: View, query: string)
    ensures Search(ViewFilter(v, s), query) == ViewFilter(v, Search(s, query))
  {
    var m := (c: Cigar) => Matches(c, query);
    var shown := (c: Cigar) => Shown(v, query, c);
    match v
    case All =>
    case InHumidor =>
      SelectSelect(s, IsUnsmoked, m, shown);
      SelectSelect(s, m, IsUnsmoked, shown);
    case Smoked =>
      SelectSelect(s, IsSmoked, m, shown);
      SelectSelect(s, m, IsSmoked, shown);
  }

  function PadronRecord(): Cigar
  {
    Cigar(1, "Padron", "1964", "Robusto", "Maduro", "Nicaragua", "Full",
          3, 12.5, "", "2024-05-01", false, 0, "")
  }

  lemma PadronKey()
    ensures SearchKey(PadronRecord()) == "padron 1964"
  {
    var key := SearchKey(PadronRecord());
    assert |key| == 11;
    forall i | 0 <= i < 11 ensures key[i] == "padron 1964"[i] {
      assert key[i] == LowerChar("Padron 1964"[i]);
    }
  }

  /** The query "DRON" finds brand "Padron", name "1964"; "N 19" finds it
      too, across the space between brand and name. */
  lemma PadronMatches()
    ensures Matches(PadronRecord(), "DRON")
    ensures Matches(PadronRecord(), "N 19")
  {
    var key := SearchKey(PadronRecord());
    PadronKey();
    assert Lower("DRON") == "dron";
    assert Lower("N 19") == "n 19";
    assert OccursAt(key, "dron", 2);
    assert OccursAt(key, "n 19", 5);
    OccursContains(key, "dron", 2);
    OccursContains(key, "n 19", 5);
  }

  /** "don" does not find it: "padron 1964" has no "don" in it. */
  lemma PadronDoesNotMatchDon()
    ensures !Matches(PadronRecord(), "don")
  {
    PadronKey();
    assert Lower("don") == "don";
    NoDonInKey();
  }

  lemma NoDonInKey()
    ensures !Contains("padron 1964", "don")
  {
    var key := "padron 1964";
    ContainsIff(key, "don");
    forall i | 0 <= i <= 8 ensures !OccursAt(key, "don", i) {
      assert key[i..i + 3][0] == key[i] && key[i..i + 3][1] == key[i + 1];
      if i == 2 {
        assert key[3] == 'r';
      } else {
        assert key[i] != 'd' by {
          assert i in {0, 1, 3, 4, 5, 6, 7, 8};
        }
      }
    }
  }
}
