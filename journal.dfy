/** The Tasting Journal tab: the smoked records, their statistics, the
    unrated ones offered for rating, and the journal listing newest first. */
module Journal {
  import opened Text
  import opened Cigars

  predicate HasRating(c: Cigar) { c.rating != 0 }

  predicate NoRating(c: Cigar) { c.rating == 0 }

  /** `[c for c in smoked if c["rating"]]`. */
  function RatedOf(smoked: seq<Cigar>): seq<Cigar>
  {
    Select(smoked, HasRating)
  }

  /** `[c for c in smoked if not c["rating"]]`: the records offered for rating. */
  function UnratedOf(smoked: seq<Cigar>): seq<Cigar>
  {
    Select(smoked, NoRating)
  }

  /** `sum(c["rating"] for c in s)`. */
  function RatingSum(s: seq<Cigar>): int
  {
    if s == [] then 0 else s[0].rating + RatingSum(s[1..])
  }

  /** The average rating, kept as the integer sum and count it is computed
      from; `NoAverage` stands for the dash the tab shows instead. */
  datatype Average = NoAverage | Mean(sum: int, count: nat)

  /** The three metrics: total smoked, average rating, unrated. */
  datatype Stats = Stats(total: nat, average: Average, unrated: int)

  function JournalStats(s: seq<Cigar>): Stats
  {
    var smoked := SmokedOf(s);
    var rated := RatedOf(smoked);
    Stats(|smoked|,
          if rated != [] then Mean(RatingSum(rated), |rated|) else NoAverage,
          |smoked| - |rated|)
  }

  /** The tab prints a number only when the average is non-zero. */
  predicate AverageShown(st: Stats)
  {
    st.average.Mean? && st.average.sum != 0
  }

  /** Ratings between 1 and 5 sum to between `|s|` and `5 * |s|`. */
  lemma {:induction false} RatingSumBounds(s: seq<Cigar>)
    requires forall i :: 0 <= i < |s| ==> 1 <= s[i].rating <= 5
    ensures |s| <= RatingSum(s) <= 5 * |s|
  {
    if s != [] {
      RatingSumBounds(s[1..]);
    }
  }

  /** On any collection: the total counts the smoked records, these split
      into rated and unrated ones, the unrated metric counts the records
      offered for rating, and there is an average exactly when some smoked
      record is rated. */
  lemma StatsCounts(s: seq<Cigar>)
    ensures JournalStats(s).total == |SmokedOf(s)|
    ensures multiset(RatedOf(SmokedOf(s))) + multiset(UnratedOf(SmokedOf(s))) == multiset(SmokedOf(s))
    ensures JournalStats(s).unrated == |UnratedOf(SmokedOf(s))|
    ensures JournalStats(s).average.Mean? <==> exists c :: c in SmokedOf(s) && c.rating != 0
  {
    var smoked := SmokedOf(s);
    var rated := RatedOf(smoked);
    SelectPartition(smoked, HasRating, NoRating);
    if exists c :: c in smoked && c.rating != 0 {
      var c :| c in smoked && c.rating != 0;
      SelectCount(smoked, HasRating, c);
      assert c in multiset(rated);
    }
    if rated != [] {
      assert rated[0] in rated;
    }
  }

  /** On records the store's operations produced (ratings 0..5): the average
      lies between 1 and 5 (count <= sum <= 5 * count), so the tab shows a
      number rather than a dash exactly when a smoked record is rated. */
  lemma StatsAverageBounds(s: seq<Cigar>)
    requires AllWellFormed(s)
    ensures JournalStats(s).average.Mean? ==>
              var m := JournalStats(s).average;
              1 <= m.count <= m.sum <= 5 * m.count
    ensures AverageShown(JournalStats(s)) <==> RatedOf(SmokedOf(s)) != []
  {
    var rated := RatedOf(SmokedOf(s));
    forall i | 0 <= i < |rated| ensures 1 <= rated[i].rating <= 5 {
      assert rated[i] in rated;
      assert rated[i] in s;
    }
    RatingSumBounds(rated);
  }

  /** Inserts `x` below every record with a strictly later smoked date and
      above the first one that is not later. */
  function InsertByDate(x: Cigar, t: seq<Cigar>): seq<Cigar>
  {
    if t == [] then [x]
    else if LexLess(x.smokedDate, t[0].smokedDate) then [t[0]] + InsertByDate(x, t[1..])
    else [x] + t
  }

  /** `sorted(s, key=lambda c: c["smoked_date"], reverse=True)`, as an
      insertion sort from the back. */
  function SortByDate(s: seq<Cigar>): seq<Cigar>
  {
    if s == [] then [] else InsertByDate(s[0], SortByDate(s[1..]))
  }

  /** The "All entries" listing. */
  function JournalOrder(s: seq<Cigar>): seq<Cigar>
  {
    SortByDate(SmokedOf(s))
  }

  /** Non-increasing by smoked date. */
  predicate SortedByDateDesc(r: seq<Cigar>)
  {
    forall i, j :: 0 <= i < j < |r| ==> !LexLess(r[i].smokedDate, r[j].smokedDate)
  }

  /** The records with smoked date `d`, in order. */
  function WithDate(s: seq<Cigar>, d: string): seq<Cigar>
  {
    Select(s, (c: Cigar) => c.smokedDate == d)
  }

  lemma {:induction false} InsertCount(x: Cigar, t: seq<Cigar>)
    ensures multiset(InsertByDate(x, t)) == multiset(t) + multiset{x}
  {
    if t != [] && LexLess(x.smokedDate, t[0].smokedDate) {
      InsertCount(x, t[1..]);
      assert t == [t[0]] + t[1..];
    }
  }

  lemma {:induction false} InsertSorted(x: Cigar, t: seq<Cigar>)
    requires SortedByDateDesc(t)
    ensures SortedByDateDesc(InsertByDate(x, t))
  {
    if t == [] {
    } else if LexLess(x.smokedDate, t[0].smokedDate) {
      var rest := InsertByDate(x, t[1..]);
      InsertSorted(x, t[1..]);
      InsertCount(x, t[1..]);
      forall k | 0 <= k < |rest| ensures !LexLess(t[0].smokedDate, rest[k].smokedDate) {
        assert rest[k] in multiset(rest);
        if rest[k] == x {
          LexLessAsymmetric(x.smokedDate, t[0].smokedDate);
        } else {
          assert rest[k] in t[1..];
          var m :| 0 <= m < |t[1..]| && t[1..][m] == rest[k];
          assert t[1..][m] == t[m + 1];
        }
      }
      var r := [t[0]] + rest;
      forall i, j | 0 <= i < j < |r| ensures !LexLess(r[i].smokedDate, r[j].smokedDate) {
        if i > 0 {
          assert r[i] == rest[i - 1] && r[j] == rest[j - 1];
        } else {
          assert r[j] == rest[j - 1];
        }
      }
    } else {
      var r := [x] + t;
      forall i, j | 0 <= i < j < |r| ensures !LexLess(r[i].smokedDate, r[j].smokedDate) {
        if i == 0 && j > 1 {
          NotLessTransitive(x.smokedDate, t[0].smokedDate, t[j - 1].smokedDate);
        }
      }
    }
  }

  /** The journal order is non-increasing by date and holds the same
      records, each as often as before. */
  lemma {:induction false} SortSpec(s: seq<Cigar>)
    ensures SortedByDateDesc(SortByDate(s))
    ensures multiset(SortByDate(s)) == multiset(s)
  {
    if s != [] {
      SortSpec(s[1..]);
      InsertSorted(s[0], SortByDate(s[1..]));
      InsertCount(s[0], SortByDate(s[1..]));
      assert s == [s[0]] + s[1..];
    }
  }

  lemma {:induction false} InsertStable(x: Cigar, t: seq<Cigar>, d: string)
    ensures WithDate(InsertByDate(x, t), d) ==
            if x.smokedDate == d then [x] + WithDate(t, d) else WithDate(t, d)
  {
    if t != [] && LexLess(x.smokedDate, t[0].smokedDate) {
      InsertStable(x, t[1..], d);
      if t[0].smokedDate == d {
        LexLessIrreflexive(d);
      }
    }
  }

  /** Stability: records with equal smoked dates keep their relative order. */
  lemma {:induction false} SortStable(s: seq<Cigar>, d: string)
    ensures WithDate(SortByDate(s), d) == WithDate(s, d)
  {
    if s != [] {
      SortStable(s[1..], d);
      InsertStable(s[0], SortByDate(s[1..]), d);
    }
  }

  lemma WithDateCons(r: seq<Cigar>, d: string)
    requires r != []
    ensures WithDate(r, d) ==
            if r[0].smokedDate == d then [r[0]] + WithDate(r[1..], d) else WithDate(r[1..], d)
  {
  }

  /** Two sequences non-increasing by date with the same records of each
      date start with records of the same date. */
  lemma FirstDatesAgree(r1: seq<Cigar>, r2: seq<Cigar>)
    requires SortedByDateDesc(r1) && SortedByDateDesc(r2) && r1 != [] && r2 != []
    requires WithDate(r1, r1[0].smokedDate) == WithDate(r2, r1[0].smokedDate)
    requires WithDate(r1, r2[0].smokedDate) == WithDate(r2, r2[0].smokedDate)
    ensures r1[0].smokedDate == r2[0].smokedDate
  {
    var a, b := r1[0].smokedDate, r2[0].smokedDate;
    if a != b {
      LexLessTotal(a, b);
      WithDateCons(r1, a);
      WithDateCons(r2, b);
      if LexLess(a, b) {
        LaterDateAbsent(r1, b);
      } else {
        LaterDateAbsent(r2, a);
      }
    }
  }

  /** A sequence non-increasing by date is determined by its records of
      each date in order. */
  lemma {:induction false} SortedUnique(r1: seq<Cigar>, r2: seq<Cigar>)
    requires SortedByDateDesc(r1) && SortedByDateDesc(r2)
    requires forall d :: WithDate(r1, d) == WithDate(r2, d)
    ensures r1 == r2
    decreases |r1|
  {
    if r1 == [] {
      if r2 != [] {
        WithDateCons(r2, r2[0].smokedDate);
      }
    } else if r2 == [] {
      WithDateCons(r1, r1[0].smokedDate);
    } else {
      FirstDatesAgree(r1, r2);
      var d0 := r1[0].smokedDate;
      WithDateCons(r1, d0);
      WithDateCons(r2, d0);
      assert WithDate(r1, d0) == WithDate(r2, d0);
      assert r1[0] == WithDate(r1, d0)[0] == WithDate(r2, d0)[0] == r2[0];
      forall d ensures WithDate(r1[1..], d) == WithDate(r2[1..], d) {
        WithDateCons(r1, d);
        WithDateCons(r2, d);
        assert WithDate(r1, d) == WithDate(r2, d);
        if d == d0 {
          assert WithDate(r1[1..], d) == WithDate(r1, d)[1..];
          assert WithDate(r2[1..], d) == WithDate(r2, d)[1..];
        }
      }
      assert SortedByDateDesc(r1[1..]) && SortedByDateDesc(r2[1..]);
      SortedUnique(r1[1..], r2[1..]);
      assert r1 == [r1[0]] + r1[1..] && r2 == [r2[0]] + r2[1..];
    }
  }

  /** In a sequence non-increasing by date, no record is later than the
      first one. */
  lemma LaterDateAbsent(r: seq<Cigar>, d: string)
    requires SortedByDateDesc(r) && r != [] && LexLess(r[0].smokedDate, d)
    ensures WithDate(r, d) == []
  {
    if WithDate(r, d) != [] {
      var c := WithDate(r, d)[0];
      assert c in WithDate(r, d);
      var k :| 0 <= k < |r| && r[k] == c;
      if k == 0 {
        LexLessIrreflexive(d);
      }
    }
  }

  /** The journal is exactly Python's stable descending sort: a listing is
      it if and only if it is non-increasing by smoked date and, date by date,
      lists the smoked records in their stored order. */
  lemma JournalOrderCharacterized(s: seq<Cigar>, r: seq<Cigar>)
    ensures r == JournalOrder(s) <==>
            SortedByDateDesc(r) && forall d :: WithDate(r, d) == WithDate(SmokedOf(s), d)
  {
    SortSpec(SmokedOf(s));
    forall d ensures WithDate(JournalOrder(s), d) == WithDate(SmokedOf(s), d) {
      SortStable(SmokedOf(s), d);
    }
    if SortedByDateDesc(r) && forall d :: WithDate(r, d) == WithDate(SmokedOf(s), d) {
      SortedUnique(r, JournalOrder(s));
    }
  }

  /** The journal lists exactly the smoked records. */
  lemma JournalIsPermutation(s: seq<Cigar>)
    ensures multiset(JournalOrder(s)) == multiset(SmokedOf(s))
    ensures forall c :: c in JournalOrder(s) ==> c.smoked
  {
    SortSpec(SmokedOf(s));
    forall c | c in JournalOrder(s) ensures c.smoked {
      assert c in multiset(JournalOrder(s));
      assert c in SmokedOf(s);
    }
  }

  lemma JuneAfterMay()
    ensures LexLess("2024-05-01", "2024-06-01")
    ensures !LexLess("2024-06-01", "2024-05-01")
  {
    assert "2024-05-01"[..6] == "2024-0" == "2024-06-01"[..6];
    LexLessAt("2024-05-01", "2024-06-01", 6);
    LexLessAsymmetric("2024-05-01", "2024-06-01");
  }

  /** A record smoked on 2024-06-01 is listed before one smoked on
      2024-05-01, whatever order they were stored in. */
  lemma LaterDateFirst(may: Cigar, june: Cigar)
    requires may.smokedDate == "2024-05-01" && june.smokedDate == "2024-06-01"
    ensures SortByDate([may, june]) == [june, may]
    ensures SortByDate([june, may]) == [june, may]
  {
    JuneAfterMay();
    assert SortByDate([june]) == [june];
    assert SortByDate([may]) == [may];
    assert [may, june][1..] == [june];
    assert [june, may][1..] == [may];
    assert InsertByDate(may, [june]) == [june] + InsertByDate(may, []);
  }
}
