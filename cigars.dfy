/** The cigar record of the humidor's store (one dict of `data["cigars"]`),
    the add form's values, and the list comprehension that every query and
    the delete are made of. */
module Cigars {

  /** One stored record. Dates are the ISO strings the store keeps
      (`str(date)`), `rating` is 0 while unrated. */
  datatype Cigar = Cigar(
    id: int,
    brand: string,
    name: string,
    vitola: string,
    wrapper: string,
    origin: string,
    strength: string,
    qty: nat,
    price: real,
    notes: string,
    purchaseDate: string,
    smoked: bool,
    rating: int,
    smokedDate: string)

  /** The values the "Add a new cigar" form submits. */
  datatype CigarForm = CigarForm(
    brand: string,
    name: string,
    vitola: string,
    wrapper: string,
    origin: string,
    strength: string,
    qty: nat,
    price: real,
    notes: string,
    purchaseDate: string)

  /** The user-supplied part of a record. */
  function FormOf(c: Cigar): CigarForm
  {
    CigarForm(c.brand, c.name, c.vitola, c.wrapper, c.origin, c.strength,
              c.qty, c.price, c.notes, c.purchaseDate)
  }

  /** The record the add form creates: the form's values under the given id,
      with the bookkeeping fields at their "not smoked yet" defaults. */
  function NewCigar(id: int, f: CigarForm): (c: Cigar)
    ensures c.id == id && FormOf(c) == f
    ensures !c.smoked && c.rating == 0 && c.smokedDate == ""
  {
    Cigar(id, f.brand, f.name, f.vitola, f.wrapper, f.origin, f.strength,
          f.qty, f.price, f.notes, f.purchaseDate, false, 0, "")
  }

  predicate IsSmoked(c: Cigar) { c.smoked }

  predicate IsUnsmoked(c: Cigar) { !c.smoked }

  /** What the store's own operations keep true of every record: a rating of
      0 (unrated) or 1..5, ratings only on smoked records, and a smoked date
      exactly on smoked records. */
  predicate WellFormed(c: Cigar)
  {
    0 <= c.rating <= 5 &&
    (c.rating != 0 ==> c.smoked) &&
    (c.smoked <==> c.smokedDate != "")
  }

  predicate AllWellFormed(s: seq<Cigar>)
  {
    forall i :: 0 <= i < |s| ==> WellFormed(s[i])
  }

  /** `a` is `b` with some records left out, the rest in their order. */
  predicate IsSubsequence(a: seq<Cigar>, b: seq<Cigar>)
    decreases |b|
  {
    if b == [] then a == []
    else (a != [] && a[0] == b[0] && IsSubsequence(a[1..], b[1..])) || IsSubsequence(a, b[1..])
  }

  lemma {:induction false} SubsequenceReflexive(s: seq<Cigar>)
    ensures IsSubsequence(s, s)
  {
    if s != [] {
      SubsequenceReflexive(s[1..]);
    }
  }

  /** The list comprehension `[c for c in s if p(c)]`. */
  function Select(s: seq<Cigar>, p: Cigar -> bool): (r: seq<Cigar>)
    ensures |r| <= |s|
    ensures forall c :: c in r ==> c in s && p(c)
  {
    if s == [] then []
    else if p(s[0]) then [s[0]] + Select(s[1..], p)
    else Select(s[1..], p)
  }

  /** The selection keeps the records in their original order. */
  lemma {:induction false} SelectIsSubsequence(s: seq<Cigar>, p: Cigar -> bool)
    ensures IsSubsequence(Select(s, p), s)
  {
    if s != [] {
      SelectIsSubsequence(s[1..], p);
    }
  }

  /** The selection keeps every copy of a record that satisfies `p` and none
      of one that does not. */
  lemma {:induction false} SelectCount(s: seq<Cigar>, p: Cigar -> bool, c: Cigar)
    ensures multiset(Select(s, p))[c] == if p(c) then multiset(s)[c] else 0
  {
    if s != [] {
      SelectCount(s[1..], p, c);
      assert s == [s[0]] + s[1..];
    }
  }

  /** When every record satisfies `p`, nothing is dropped. */
  lemma {:induction false} SelectKeepsAll(s: seq<Cigar>, p: Cigar -> bool)
    requires forall i :: 0 <= i < |s| ==> p(s[i])
    ensures Select(s, p) == s
  {
    if s != [] {
      SelectKeepsAll(s[1..], p);
      assert s == [s[0]] + s[1..];
    }
  }

  /** `[c for c in s if c["smoked"]]`. */
  function SmokedOf(s: seq<Cigar>): seq<Cigar>
  {
    Select(s, IsSmoked)
  }

  /** `[c for c in s if not c["smoked"]]`. */
  function UnsmokedOf(s: seq<Cigar>): seq<Cigar>
  {
    Select(s, IsUnsmoked)
  }

  /** Selecting by `p` and by its negation splits the records in two. */
  lemma {:induction false} SelectPartition(s: seq<Cigar>, p: Cigar -> bool, q: Cigar -> bool)
    requires forall c :: q(c) == !p(c)
    ensures |Select(s, p)| + |Select(s, q)| == |s|
    ensures multiset(Select(s, p)) + multiset(Select(s, q)) == multiset(s)
  {
    if s != [] {
      SelectPartition(s[1..], p, q);
      assert s == [s[0]] + s[1..];
    }
  }

  /** Two selections in a row are one selection by the conjunction. */
  lemma {:induction false} SelectSelect(s: seq<Cigar>, p: Cigar -> bool, q: Cigar -> bool, pq: Cigar -> bool)
    requires forall c :: pq(c) == (p(c) && q(c))
    ensures Select(Select(s, p), q) == Select(s, pq)
  {
    if s != [] {
      SelectSelect(s[1..], p, q, pq);
    }
  }

  /** Selection distributes over concatenation. */
  lemma {:induction false} SelectConcat(a: seq<Cigar>, b: seq<Cigar>, p: Cigar -> bool)
    ensures Select(a + b, p) == Select(a, p) + Select(b, p)
  {
    if a != [] {
      assert (a + b)[1..] == a[1..] + b;
      SelectConcat(a[1..], b, p);
    } else {
      assert a + b == b;
    }
  }
}
