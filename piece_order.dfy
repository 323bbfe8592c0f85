/**
 The list computation of `assignedPiecesReducer`: sort pieces by id, drop every piece whose
 id equals that of the piece just before it, and sort what is left by name.

 `Array.prototype.sort` is a library routine; it is modelled here by an insertion sort on
 sequences whose result is proved sorted by the key and a permutation of its input, which is
 all the reducer relies on.
 */
module PieceOrder {
  import opened Actions

  /** Lexicographic order on strings, character by character: JavaScript's `<=` on strings. */
  predicate NameLe(a: string, b: string)
  {
    if a == [] then true
    else if b == [] then false
    else a[0] < b[0] || (a[0] == b[0] && NameLe(a[1..], b[1..]))
  }

  lemma {:induction false} NameLeTotal(a: string, b: string)
    ensures NameLe(a, b) || NameLe(b, a)
  {
    if a != [] && b != [] && a[0] == b[0] {
      NameLeTotal(a[1..], b[1..]);
    }
  }

  lemma {:induction false} NameLeTransitive(a: string, b: string, c: string)
    requires NameLe(a, b) && NameLe(b, c)
    ensures NameLe(a, c)
  {
    if a != [] && b != [] && c != [] && a[0] == b[0] && b[0] == c[0] {
      NameLeTransitive(a[1..], b[1..], c[1..]);
    }
  }

  /** The two comparators of the reducer. */
  datatype SortKey = ById | ByName

  predicate Le(key: SortKey, a: Piece, b: Piece)
  {
    match key
    case ById => a.id <= b.id
    case ByName => NameLe(a.name, b.name)
  }

  lemma LeTotal(key: SortKey, a: Piece, b: Piece)
    ensures Le(key, a, b) || Le(key, b, a)
  {
    if key == ByName {
      NameLeTotal(a.name, b.name);
    }
  }

  lemma LeTransitive(key: SortKey, a: Piece, b: Piece, c: Piece)
    requires Le(key, a, b) && Le(key, b, c)
    ensures Le(key, a, c)
  {
    if key == ByName {
      NameLeTransitive(a.name, b.name, c.name);
    }
  }

  ghost predicate SortedBy(key: SortKey, s: seq<Piece>)
  {
    forall i, j :: 0 <= i < j < |s| ==> Le(key, s[i], s[j])
  }

  /** The number of pieces in `s` whose id is `k`. */
  function Count(s: seq<Piece>, k: Id): nat
  {
    if s == [] then 0 else (if s[0].id == k then 1 else 0) + Count(s[1..], k)
  }

  lemma {:induction false} CountAbsent(s: seq<Piece>, k: Id)
    requires forall i :: 0 <= i < |s| ==> s[i].id != k
    ensures Count(s, k) == 0
  {
    if s != [] {
      CountAbsent(s[1..], k);
    }
  }

  lemma {:induction false} CountPresent(s: seq<Piece>, k: Id)
    ensures Count(s, k) > 0 <==> exists i :: 0 <= i < |s| && s[i].id == k
  {
    if s != [] {
      CountPresent(s[1..], k);
      if s[0].id != k && Count(s[1..], k) == 0 {
        forall i | 0 <= i < |s| ensures s[i].id != k {
          if i > 0 {
            assert s[i] == s[1..][i - 1];
          }
        }
      }
      if Count(s[1..], k) > 0 {
        var i :| 0 <= i < |s[1..]| && s[1..][i].id == k;
        assert s[i + 1].id == k;
      }
    }
  }

  /** Insert `x` into `s` in front of the first element not ordered before it. */
  function Insert(key: SortKey, x: Piece, s: seq<Piece>): seq<Piece>
  {
    if s == [] then [x]
    else if Le(key, x, s[0]) then [x] + s
    else [s[0]] + Insert(key, x, s[1..])
  }

  /** Every element of `s` is ordered at or after `a`. */
  ghost predicate LowerBound(key: SortKey, a: Piece, s: seq<Piece>)
  {
    forall i :: 0 <= i < |s| ==> Le(key, a, s[i])
  }

  lemma {:induction false} InsertLowerBound(key: SortKey, a: Piece, x: Piece, s: seq<Piece>)
    requires LowerBound(key, a, s) && Le(key, a, x)
    ensures LowerBound(key, a, Insert(key, x, s))
  {
    if s != [] && !Le(key, x, s[0]) {
      InsertLowerBound(key, a, x, s[1..]);
    }
  }

  lemma ConsSorted(key: SortKey, a: Piece, t: seq<Piece>)
    requires LowerBound(key, a, t) && SortedBy(key, t)
    ensures SortedBy(key, [a] + t)
  {
  }

  lemma {:induction false} InsertCorrect(key: SortKey, x: Piece, s: seq<Piece>)
    requires SortedBy(key, s)
    ensures SortedBy(key, Insert(key, x, s))
    ensures multiset(Insert(key, x, s)) == multiset(s) + multiset{x}
    ensures forall k :: Count(Insert(key, x, s), k) == Count(s, k) + (if x.id == k then 1 else 0)
  {
    if s == [] {
    } else if Le(key, x, s[0]) {
      forall i | 0 <= i < |s| ensures Le(key, x, s[i]) {
        if i > 0 {
          LeTransitive(key, x, s[0], s[i]);
        }
      }
      ConsSorted(key, x, s);
    } else {
      LeTotal(key, x, s[0]);
      InsertCorrect(key, x, s[1..]);
      InsertLowerBound(key, s[0], x, s[1..]);
      ConsSorted(key, s[0], Insert(key, x, s[1..]));
      assert s == [s[0]] + s[1..];
    }
  }

  /** Insertion sort: a permutation of `s` ordered by `key`. */
  function SortBy(key: SortKey, s: seq<Piece>): seq<Piece>
  {
    if s == [] then [] else Insert(key, s[0], SortBy(key, s[1..]))
  }

  lemma {:induction false} SortByCorrect(key: SortKey, s: seq<Piece>)
    ensures SortedBy(key, SortBy(key, s))
    ensures multiset(SortBy(key, s)) == multiset(s)
    ensures forall k :: Count(SortBy(key, s), k) == Count(s, k)
  {
    if s != [] {
      SortByCorrect(key, s[1..]);
      InsertCorrect(key, s[0], SortBy(key, s[1..]));
      assert s == [s[0]] + s[1..];
    }
  }

  /**
   The elements of `t` that `filter` keeps: each one whose id differs from the element just
   before it in the original array, `prev` being the element before `t[0]`.
   */
  function KeepAfter(prev: Piece, t: seq<Piece>): seq<Piece>
    decreases |t|
  {
    if t == [] then []
    else (if t[0].id == prev.id then [] else [t[0]]) + KeepAfter(t[0], t[1..])
  }

  /** The `filter` of the reducer: keeps the first element and every id change. */
  function DropAdjacentDuplicates(s: seq<Piece>): seq<Piece>
  {
    if s == [] then [] else [s[0]] + KeepAfter(s[0], s[1..])
  }

  lemma {:induction false} CountConcat(a: seq<Piece>, b: seq<Piece>, k: Id)
    ensures Count(a + b, k) == Count(a, k) + Count(b, k)
  {
    if a != [] {
      CountConcat(a[1..], b, k);
      assert (a + b)[0] == a[0] && (a + b)[1..] == a[1..] + b;
    } else {
      assert a + b == b;
    }
  }

  lemma {:induction false} KeepAfterCount(prev: Piece, t: seq<Piece>, k: Id)
    requires SortedBy(ById, [prev] + t)
    ensures Count(KeepAfter(prev, t), k) == if Count(t, k) > 0 && k != prev.id then 1 else 0
    decreases |t|
  {
    if t != [] {
      assert [prev] + t == [prev] + [t[0]] + t[1..];
      assert SortedBy(ById, [t[0]] + t[1..]) by {
        assert [t[0]] + t[1..] == ([prev] + t)[1..];
      }
      assert t == [t[0]] + t[1..];
      KeepAfterCount(t[0], t[1..], k);
      CountConcat(if t[0].id == prev.id then [] else [t[0]], KeepAfter(t[0], t[1..]), k);
      if t[0].id != prev.id && k == prev.id {
        assert ([prev] + t)[0] == prev && ([prev] + t)[1] == t[0];
        forall i | 0 <= i < |t[1..]| ensures t[1..][i].id != k {
          assert ([prev] + t)[i + 2] == t[1..][i];
        }
        CountAbsent(t[1..], k);
      }
    }
  }

  lemma {:induction false} KeepAfterFrom(prev: Piece, t: seq<Piece>)
    ensures forall x :: x in KeepAfter(prev, t) ==> x in t
    decreases |t|
  {
    if t != [] {
      KeepAfterFrom(t[0], t[1..]);
    }
  }

  /** On a list sorted by id, the filter leaves every id present exactly once. */
  lemma DropAdjacentDuplicatesCorrect(s: seq<Piece>)
    requires SortedBy(ById, s)
    ensures forall k :: Count(DropAdjacentDuplicates(s), k) == if Count(s, k) > 0 then 1 else 0
    ensures forall x :: x in DropAdjacentDuplicates(s) ==> x in s
  {
    if s != [] {
      assert s == [s[0]] + s[1..];
      KeepAfterFrom(s[0], s[1..]);
      forall k ensures Count(DropAdjacentDuplicates(s), k) == if Count(s, k) > 0 then 1 else 0 {
        KeepAfterCount(s[0], s[1..], k);
        CountConcat([s[0]], KeepAfter(s[0], s[1..]), k);
      }
    }
  }

  /** The projection of the payload's activities onto the piece of each one's part. */
  function PiecesOf(activities: seq<Activity>): (r: seq<Piece>)
    ensures |r| == |activities|
    ensures forall i :: 0 <= i < |r| ==> r[i] == activities[i].part.piece
  {
    if activities == [] then [] else [activities[0].part.piece] + PiecesOf(activities[1..])
  }

  /** Some activity's part is a piece with id `k`. */
  ghost predicate HasPieceId(activities: seq<Activity>, k: Id)
  {
    exists i :: 0 <= i < |activities| && activities[i].part.piece.id == k
  }

  /**
   The list `assignedPiecesReducer` stores for one assignment group: every distinct piece id
   of the activities exactly once, each entry one of the activities' pieces, ordered by name.
   */
  function AssignedPieces(activities: seq<Activity>): (r: seq<Piece>)
    ensures SortedBy(ByName, r)
    ensures forall k :: Count(r, k) == if HasPieceId(activities, k) then 1 else 0
    ensures forall x :: x in r ==> exists i :: 0 <= i < |activities| && activities[i].part.piece == x
  {
    var pieces := PiecesOf(activities);
    var byId := SortBy(ById, pieces);
    var distinct := DropAdjacentDuplicates(byId);
    var byName := SortBy(ByName, distinct);
    AssignedPiecesCorrect(activities, pieces, byId, distinct, byName);
    byName
  }

  lemma AssignedPiecesCorrect(activities: seq<Activity>, pieces: seq<Piece>, byId: seq<Piece>,
                              distinct: seq<Piece>, byName: seq<Piece>)
    requires pieces == PiecesOf(activities) && byId == SortBy(ById, pieces)
    requires distinct == DropAdjacentDuplicates(byId) && byName == SortBy(ByName, distinct)
    ensures SortedBy(ByName, byName)
    ensures forall k :: Count(byName, k) == if HasPieceId(activities, k) then 1 else 0
    ensures forall x :: x in byName ==> exists i :: 0 <= i < |activities| && activities[i].part.piece == x
  {
    SortByCorrect(ById, pieces);
    DropAdjacentDuplicatesCorrect(byId);
    SortByCorrect(ByName, distinct);
    forall k ensures Count(byName, k) == if HasPieceId(activities, k) then 1 else 0 {
      CountPresent(pieces, k);
    }
    forall x | x in byName ensures exists i :: 0 <= i < |activities| && activities[i].part.piece == x {
      assert x in multiset(byName);
      assert x in distinct;
      assert x in multiset(byId);
      assert x in multiset(pieces);
      var i :| 0 <= i < |pieces| && pieces[i] == x;
    }
  }
}
