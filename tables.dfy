/**
 The two tables behind a round and the SQL they are accessed with,
 as pure functions on sequences of rows:
 - `INSERT ... ON CONFLICT DO NOTHING` against a unique key that is a parameter
   (`clash(existing, new)` holds when the new row would violate it);
 - `ORDER BY created_at DESC` on the guess table.
 */
module Tables {
  import opened Api

  /** A row of `guesses`: the guessed id, whether it was right, and `created_at`. */
  datatype Guess = Guess(animeId: AnimeId, correct: bool, createdAt: int)

  function View(g: Guess): GuessView
  {
    GuessView(g.animeId, g.correct)
  }

  /** The field mapping of the guess list: every row keeps its `animeId` and `correct`. */
  function Views(rows: seq<Guess>): (r: seq<GuessView>)
    ensures |r| == |rows|
    ensures forall i | 0 <= i < |rows| :: r[i].animeId == rows[i].animeId && r[i].correct == rows[i].correct
  {
    seq(|rows|, i requires 0 <= i < |rows| => View(rows[i]))
  }

  // ---------------------------------------------------------------------------
  // INSERT ... ON CONFLICT DO NOTHING

  /** Some existing row shares the unique key with `row`. */
  predicate ClashesWithAny<T>(rows: seq<T>, row: T, clash: (T, T) -> bool)
  {
    exists i | 0 <= i < |rows| :: clash(rows[i], row)
  }

  /** No row clashes with a row inserted after it: the table satisfies its unique constraint. */
  predicate Unique<T>(rows: seq<T>, clash: (T, T) -> bool)
  {
    forall i, j | 0 <= i < j < |rows| :: !clash(rows[i], rows[j])
  }

  /** The table after inserting `row`, doing nothing when it conflicts. */
  function InsertOrIgnore<T>(rows: seq<T>, row: T, clash: (T, T) -> bool): (r: seq<T>)
    ensures rows <= r && |r| <= |rows| + 1
    ensures |r| == |rows| + 1 <==> !ClashesWithAny(rows, row, clash)
    ensures |r| == |rows| + 1 ==> r[|rows|] == row
  {
    if ClashesWithAny(rows, row, clash) then rows else rows + [row]
  }

  /** An insert that does nothing on conflict keeps the unique constraint. */
  lemma InsertKeepsUnique<T>(rows: seq<T>, row: T, clash: (T, T) -> bool)
    requires Unique(rows, clash)
    ensures Unique(InsertOrIgnore(rows, row, clash), clash)
  {
    var r := InsertOrIgnore(rows, row, clash);
    if |r| == |rows| + 1 {
      forall i, j | 0 <= i < j < |r| ensures !clash(r[i], r[j]) {
        if j == |rows| {
          assert r[i] == rows[i];
        }
      }
    }
  }

  /**
   When the key compares a row with itself as a clash (every real key does),
   inserting the same row a second time changes nothing.
   */
  lemma InsertTwiceIsOnce<T>(rows: seq<T>, row: T, clash: (T, T) -> bool)
    requires clash(row, row)
    ensures InsertOrIgnore(InsertOrIgnore(rows, row, clash), row, clash) == InsertOrIgnore(rows, row, clash)
  {
    var once := InsertOrIgnore(rows, row, clash);
    if |once| == |rows| + 1 {
      assert clash(once[|rows|], row);
    } else {
      var i :| 0 <= i < |rows| && clash(rows[i], row);
      assert clash(once[i], row);
    }
  }

  /**
   Under a key on which every two rows clash (a singleton key) the unique
   constraint holds exactly of the tables with at most one row.
   */
  lemma SingletonKeyHoldsOneRow<T>(rows: seq<T>, clash: (T, T) -> bool)
    requires forall a, b :: clash(a, b)
    ensures Unique(rows, clash) <==> |rows| <= 1
  {
    if |rows| > 1 {
      assert clash(rows[0], rows[1]);
    }
  }

  // ---------------------------------------------------------------------------
  // ORDER BY created_at DESC

  /** Timestamps never decrease along the rows: they were inserted in clock order. */
  predicate Chronological(rows: seq<Guess>)
  {
    forall i, j | 0 <= i < j < |rows| :: rows[i].createdAt <= rows[j].createdAt
  }

  /** Timestamps never increase along the rows. */
  predicate NewestOrdered(rows: seq<Guess>)
  {
    forall i, j | 0 <= i < j < |rows| :: rows[i].createdAt >= rows[j].createdAt
  }

  /** Puts `g` in front of the first row that is not newer than it. */
  function Place(g: Guess, s: seq<Guess>): (r: seq<Guess>)
    ensures multiset(r) == multiset(s) + multiset{g}
  {
    if s == [] || s[0].createdAt <= g.createdAt then [g] + s
    else
      assert s == [s[0]] + s[1..];
      [s[0]] + Place(g, s[1..])
  }

  /** Placing a row into a newest-first list keeps it newest-first. */
  lemma {:induction false} PlaceKeepsOrder(g: Guess, s: seq<Guess>)
    requires NewestOrdered(s)
    ensures NewestOrdered(Place(g, s))
  {
    if s != [] && s[0].createdAt > g.createdAt {
      var tail := s[1..];
      assert NewestOrdered(tail);
      PlaceKeepsOrder(g, tail);
      var rest := Place(g, tail);
      var r := [s[0]] + rest;
      forall j | 0 < j < |r| ensures r[0].createdAt >= r[j].createdAt {
        var x := r[j];
        assert x == rest[j - 1];
        assert x in multiset(rest);
        if x != g {
          assert x in multiset(tail);
          var k :| 0 <= k < |tail| && tail[k] == x;
          assert s[k + 1] == x;
        }
      }
      assert NewestOrdered(r);
    }
  }

  /**
   The guess table read with `ORDER BY created_at DESC`. Rows with equal
   timestamps, which SQL leaves in no particular order, come latest-inserted first.
   */
  function NewestFirst(rows: seq<Guess>): (r: seq<Guess>)
    ensures multiset(r) == multiset(rows)
    ensures NewestOrdered(r)
  {
    if rows == [] then []
    else
      var init := rows[..|rows| - 1];
      assert rows == init + [rows[|rows| - 1]];
      PlaceKeepsOrder(rows[|rows| - 1], NewestFirst(init));
      Place(rows[|rows| - 1], NewestFirst(init))
  }

  function Reverse<T>(s: seq<T>): seq<T>
  {
    if s == [] then [] else [s[|s| - 1]] + Reverse(s[..|s| - 1])
  }

  /** Rows inserted in clock order are listed in exactly the reverse of insertion order. */
  lemma {:induction false} ChronologicalNewestFirst(rows: seq<Guess>)
    requires Chronological(rows)
    ensures NewestFirst(rows) == Reverse(rows)
  {
    if rows != [] {
      var init := rows[..|rows| - 1];
      assert Chronological(init);
      ChronologicalNewestFirst(init);
      if init != [] {
        assert NewestFirst(init)[0] == init[|init| - 1];
      }
    }
  }

  /** Appending a row stamped no earlier than any existing row keeps the table chronological. */
  lemma InsertKeepsChronological(rows: seq<Guess>, g: Guess, clash: (Guess, Guess) -> bool)
    requires Chronological(rows)
    requires forall i | 0 <= i < |rows| :: rows[i].createdAt <= g.createdAt
    ensures Chronological(InsertOrIgnore(rows, g, clash))
  {
  }
}
