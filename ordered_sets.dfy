/** PHP arrays of ids used as ordered sets: `$a[$key] = true` inserts a key at the end
    unless it is already there, `unset($a[$key])` removes it, and
    `array_keys($a)` lists the keys in insertion order. */
module OrderedSets {

  predicate NoDuplicates(s: seq<string>) {
    forall i, j :: 0 <= i < j < |s| ==> s[i] != s[j]
  }

  /** `$a[$x] = true`. */
  function Insert(s: seq<string>, x: string): (r: seq<string>)
    ensures forall y :: y in r <==> y in s || y == x
    ensures x in s ==> r == s
    ensures x !in s ==> r == s + [x]
    ensures NoDuplicates(s) ==> NoDuplicates(r)
  {
    if x in s then s else s + [x]
  }

  /** `foreach ($xs as $x) { $a[$x] = true; }`. */
  function InsertAll(s: seq<string>, xs: seq<string>): seq<string>
    decreases |xs|
  {
    if xs == [] then s else InsertAll(Insert(s, xs[0]), xs[1..])
  }

  /** The result holds exactly the old keys and the inserted ones, keeps the
      old keys in front in their order, and adds no duplicate. */
  lemma {:induction false} InsertAllContents(s: seq<string>, xs: seq<string>)
    ensures forall y :: y in InsertAll(s, xs) <==> y in s || y in xs
    ensures NoDuplicates(s) ==> NoDuplicates(InsertAll(s, xs))
    ensures |s| <= |InsertAll(s, xs)| && InsertAll(s, xs)[..|s|] == s
    decreases |xs|
  {
    if xs != [] {
      var s' := Insert(s, xs[0]);
      InsertAllContents(s', xs[1..]);
      assert forall y :: y in xs <==> y == xs[0] || y in xs[1..] by {
        assert xs == [xs[0]] + xs[1..];
      }
      assert s'[..|s|] == s;
    }
  }

  /** Inserting keys that are all present already changes nothing. */
  lemma {:induction false} InsertAllPresent(s: seq<string>, xs: seq<string>)
    requires forall x :: x in xs ==> x in s
    ensures InsertAll(s, xs) == s
    decreases |xs|
  {
    if xs != [] {
      assert xs[0] in xs;
      assert forall x :: x in xs[1..] ==> x in xs;
      InsertAllPresent(s, xs[1..]);
    }
  }

  /** Set insertion is idempotent. */
  lemma InsertAllIdempotent(s: seq<string>, xs: seq<string>)
    ensures InsertAll(InsertAll(s, xs), xs) == InsertAll(s, xs)
  {
    InsertAllContents(s, xs);
    InsertAllPresent(InsertAll(s, xs), xs);
  }

  /** `unset($a[$x])`. */
  function Without(s: seq<string>, x: string): (r: seq<string>)
    ensures forall y :: y in r <==> y in s && y != x
    ensures |r| <= |s|
    ensures x !in s ==> r == s
  {
    if s == [] then []
    else if s[0] == x then Without(s[1..], x)
    else [s[0]] + Without(s[1..], x)
  }
}
