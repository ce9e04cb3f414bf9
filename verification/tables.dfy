/**
  The two database tables as sequences of rows in insertion order, the
  duplicate check the movie loop runs before each insert, and the
  reference description of what the movie table ends up holding: the
  first row of every id, in file order.
 */
module Tables {

  /** A row of the movies table; the rating is whatever the rating parser
      yields, carried through unexamined. */
  datatype Movie<R> = Movie(id: int, title: string, year: int, rating: R)

  /** A row of the genres table (its auto-assigned key is not modelled). */
  datatype Genre = Genre(movieId: int, genre: string)

  datatype Database<R> = Database(movies: seq<Movie<R>>, genres: seq<Genre>)

  function Ids<R>(t: seq<Movie<R>>): set<int> {
    set i | 0 <= i < |t| :: t[i].id
  }

  ghost predicate UniqueIds<R>(t: seq<Movie<R>>) {
    forall i, j :: 0 <= i < j < |t| ==> t[i].id != t[j].id
  }

  lemma IdsOfCons<R>(m: Movie<R>, t: seq<Movie<R>>)
    ensures Ids([m] + t) == {m.id} + Ids(t)
  {
    var s := [m] + t;
    forall x | x in Ids(s) ensures x in {m.id} + Ids(t) {
      var i :| 0 <= i < |s| && s[i].id == x;
      if i > 0 { assert s[i] == t[i - 1]; }
    }
    forall x | x in Ids(t) ensures x in Ids(s) {
      var i :| 0 <= i < |t| && t[i].id == x;
      assert s[i + 1] == t[i];
    }
    assert s[0] == m;
  }

  lemma IdsOfSnoc<R>(t: seq<Movie<R>>, m: Movie<R>)
    ensures Ids(t + [m]) == Ids(t) + {m.id}
  {
    var s := t + [m];
    forall x | x in Ids(s) ensures x in Ids(t) + {m.id} {
      var i :| 0 <= i < |s| && s[i].id == x;
      if i < |t| { assert s[i] == t[i]; }
    }
    forall x | x in Ids(t) ensures x in Ids(s) {
      var i :| 0 <= i < |t| && t[i].id == x;
      assert s[i] == t[i];
    }
    assert s[|t|] == m;
  }

  /** The number of rows with a given id: the movie loop's
      `SELECT COUNT(*) FROM movies WHERE id = ?`. */
  function CountId<R>(t: seq<Movie<R>>, id: int): (n: nat)
    ensures n > 0 <==> id in Ids(t)
    ensures UniqueIds(t) ==> n <= 1
    decreases |t|
  {
    if |t| == 0 then 0
    else
      IdsOfCons(t[0], t[1..]);
      assert t == [t[0]] + t[1..];
      var rest := CountId(t[1..], id);
      if t[0].id == id then
        assert UniqueIds(t) ==> id !in Ids(t[1..]);
        1 + rest
      else rest
  }

  /** One pass of the movie loop's body: a row whose id is already present
      is skipped, any other is appended. */
  function InsertMovie<R>(t: seq<Movie<R>>, m: Movie<R>): (r: seq<Movie<R>>)
    ensures m.id in Ids(t) ==> r == t
    ensures m.id !in Ids(t) ==> r == t + [m]
    ensures Ids(r) == Ids(t) + {m.id}
    ensures UniqueIds(t) ==> UniqueIds(r)
  {
    IdsOfSnoc(t, m);
    if CountId(t, m.id) > 0 then t else t + [m]
  }

  /** The movie loop over already-parsed rows, starting from table `t`. */
  function InsertAll<R>(t: seq<Movie<R>>, ps: seq<Movie<R>>): (r: seq<Movie<R>>)
    ensures Ids(r) == Ids(t) + Ids(ps)
    ensures UniqueIds(t) ==> UniqueIds(r)
    decreases |ps|
  {
    if |ps| == 0 then t
    else
      IdsOfCons(ps[0], ps[1..]);
      assert ps == [ps[0]] + ps[1..];
      InsertAll(InsertMovie(t, ps[0]), ps[1..])
  }

  /** Inserting one more row after a batch is the same as one more pass. */
  lemma {:induction false} InsertAllSnoc<R>(t: seq<Movie<R>>, ps: seq<Movie<R>>, p: Movie<R>)
    ensures InsertAll(t, ps + [p]) == InsertMovie(InsertAll(t, ps), p)
    decreases |ps|
  {
    if |ps| == 0 {
      assert ps + [p] == [p];
      assert [p][1..] == [];
    } else {
      assert (ps + [p])[0] == ps[0];
      assert (ps + [p])[1..] == ps[1..] + [p];
      InsertAllSnoc(InsertMovie(t, ps[0]), ps[1..], p);
    }
  }

  /** Row `j` is the first row of its id. */
  ghost predicate IsFirst<R>(ps: seq<Movie<R>>, j: int)
    requires 0 <= j < |ps|
  {
    forall k :: 0 <= k < j ==> ps[k].id != ps[j].id
  }

  /** Reference definition: the rows that are the first of their id, kept
      in their original order. */
  ghost function FirstOccurrences<R>(ps: seq<Movie<R>>): seq<Movie<R>>
    decreases |ps|
  {
    if |ps| == 0 then []
    else
      FirstOccurrences(ps[..|ps| - 1]) + (if IsFirst(ps, |ps| - 1) then [ps[|ps| - 1]] else [])
  }

  lemma LastIsFirst<R>(ps: seq<Movie<R>>)
    requires |ps| > 0
    ensures IsFirst(ps, |ps| - 1) <==> ps[|ps| - 1].id !in Ids(ps[..|ps| - 1])
  {
  }

  lemma {:induction false} FirstOccurrencesIds<R>(ps: seq<Movie<R>>)
    ensures Ids(FirstOccurrences(ps)) == Ids(ps)
    decreases |ps|
  {
    if |ps| > 0 {
      var init, last := ps[..|ps| - 1], ps[|ps| - 1];
      assert ps == init + [last];
      FirstOccurrencesIds(init);
      LastIsFirst(ps);
      IdsOfSnoc(init, last);
      if IsFirst(ps, |ps| - 1) {
        IdsOfSnoc(FirstOccurrences(init), last);
      } else {
        assert FirstOccurrences(ps) == FirstOccurrences(init) + [] == FirstOccurrences(init);
        assert last.id in Ids(init);
        assert Ids(ps) == Ids(init) + {last.id} == Ids(init);
      }
    }
  }

  /** The fold the movie loop performs from an empty table yields exactly
      the first row of every id, in file order. */
  lemma {:induction false} InsertAllKeepsFirstOccurrences<R>(ps: seq<Movie<R>>)
    ensures InsertAll([], ps) == FirstOccurrences(ps)
    decreases |ps|
  {
    if |ps| > 0 {
      var init, last := ps[..|ps| - 1], ps[|ps| - 1];
      assert ps == init + [last];
      InsertAllSnoc([], init, last);
      InsertAllKeepsFirstOccurrences(init);
      FirstOccurrencesIds(init);
      LastIsFirst(ps);
    }
  }

  /** The rows of the table are exactly the first rows of their ids. */
  lemma {:induction false} FirstOccurrencesAreFirstRows<R>(ps: seq<Movie<R>>)
    ensures forall m :: m in FirstOccurrences(ps) ==>
              exists j :: 0 <= j < |ps| && IsFirst(ps, j) && ps[j] == m
    ensures forall j :: 0 <= j < |ps| && IsFirst(ps, j) ==> ps[j] in FirstOccurrences(ps)
    decreases |ps|
  {
    if |ps| > 0 {
      var n := |ps| - 1;
      var init := ps[..n];
      FirstOccurrencesAreFirstRows(init);
      forall j | 0 <= j < n && IsFirst(init, j) ensures IsFirst(ps, j) {
        assert forall k :: 0 <= k < j ==> init[k] == ps[k];
      }
      forall j | 0 <= j < n && IsFirst(ps, j) ensures IsFirst(init, j) {
        assert forall k :: 0 <= k < j ==> init[k] == ps[k];
      }
      forall m | m in FirstOccurrences(ps)
        ensures exists j :: 0 <= j < |ps| && IsFirst(ps, j) && ps[j] == m
      {
        if m in FirstOccurrences(init) {
          var j :| 0 <= j < n && IsFirst(init, j) && init[j] == m;
          assert IsFirst(ps, j) && ps[j] == m;
        } else {
          assert IsFirst(ps, n) && ps[n] == m;
        }
      }
      forall j | 0 <= j < |ps| && IsFirst(ps, j) ensures ps[j] in FirstOccurrences(ps) {
        if j < n {
          assert IsFirst(init, j) && init[j] == ps[j];
        }
      }
    }
  }

  /** No two rows of the reference table share an id. */
  lemma FirstOccurrencesUnique<R>(ps: seq<Movie<R>>)
    ensures UniqueIds(FirstOccurrences(ps))
  {
    InsertAllKeepsFirstOccurrences(ps);
  }

  /** When several rows share an id, the table holds the first of them and
      no other row with that id. */
  lemma FirstRowWins<R>(ps: seq<Movie<R>>, j: int)
    requires 0 <= j < |ps| && IsFirst(ps, j)
    ensures ps[j] in FirstOccurrences(ps)
    ensures forall m :: m in FirstOccurrences(ps) && m.id == ps[j].id ==> m == ps[j]
  {
    FirstOccurrencesAreFirstRows(ps);
    FirstOccurrencesUnique(ps);
    var t := FirstOccurrences(ps);
    forall m | m in t && m.id == ps[j].id ensures m == ps[j] {
      var a :| 0 <= a < |t| && t[a] == m;
      var b :| 0 <= b < |t| && t[b] == ps[j];
      assert a == b;
    }
  }
}
