/**
 * The table model shared by every stage of the pipeline: a pandas DataFrame
 * seen as a set of column names and a sequence of rows, each row a map from
 * column name to cell. Missing values (NaN / None) are the `Null` cell.
 */
module Frames {

  /** The column names the stages share. */
  const MINUTES := "minutes"
  const MINUTES_PLAYED := "minutes_played"
  const PLAYER_ID := "player_feb_id"
  const PLAYER_NAME := "player_name"

  datatype Option<+T> = None | Some(value: T)

  datatype Result<+T, +E> = Success(value: T) | Failure(error: E)

  /** A cell: a number, a text (player names) or the missing marker. */
  datatype Cell = Num(x: real) | Text(s: string) | Null

  type Row = map<string, Cell>

  datatype Frame = Frame(columns: set<string>, rows: seq<Row>)

  /** Every row carries exactly the frame's columns. */
  ghost predicate WellFormed(f: Frame) {
    forall i :: 0 <= i < |f.rows| ==> f.rows[i].Keys == f.columns
  }

  /** Reads a cell; a column the row does not have reads as missing. */
  function Get(row: Row, col: string): Cell {
    if col in row then row[col] else Null
  }

  /** The comparison `v > 0` of pandas: false for a missing value. */
  predicate Positive(c: Cell) {
    c.Num? && c.x > 0.0
  }

  /** The comparison `a == b` of pandas on key values: a missing value equals nothing. */
  predicate SameKey(a: Cell, b: Cell) {
    a == b && a != Null
  }

  /** A number, with a missing value (or text) counted as 0, as pandas' sums skip them. */
  function NumOrZero(c: Cell): real {
    if c.Num? then c.x else 0.0
  }

  predicate Distinct<T(==)>(s: seq<T>) {
    forall i, j :: 0 <= i < j < |s| ==> s[i] != s[j]
  }

  /** The values of one column, row by row. */
  function Column(rows: seq<Row>, col: string): (r: seq<Cell>)
    ensures |r| == |rows|
  {
    seq(|rows|, i requires 0 <= i < |rows| => Get(rows[i], col))
  }

  /** Boolean-mask selection `s[mask]`: the elements satisfying `p`, in their original order. */
  function Where<T(!new)>(s: seq<T>, p: T -> bool): (r: seq<T>)
    ensures |r| <= |s|
    ensures forall x :: x in r <==> x in s && p(x)
  {
    if s == [] then []
    else (if p(s[0]) then [s[0]] else []) + Where(s[1..], p)
  }

  /** Selection distributes over concatenation: it never reorders what it keeps. */
  lemma {:induction false} WhereAppend<T(!new)>(a: seq<T>, b: seq<T>, p: T -> bool)
    ensures Where(a + b, p) == Where(a, p) + Where(b, p)
  {
    if a != [] {
      assert (a + b)[0] == a[0] && (a + b)[1..] == a[1..] + b;
      WhereAppend(a[1..], b, p);
      calc {
        Where(a + b, p);
        (if p(a[0]) then [a[0]] else []) + Where(a[1..] + b, p);
        (if p(a[0]) then [a[0]] else []) + (Where(a[1..], p) + Where(b, p));
        Where(a, p) + Where(b, p);
      }
    } else {
      assert a + b == b;
    }
  }

  /** A selection keeps every element it keeps as often as it occurs, and the others not at all. */
  lemma {:induction false} WhereCount<T(!new)>(s: seq<T>, p: T -> bool)
    ensures forall x :: multiset(Where(s, p))[x] == if p(x) then multiset(s)[x] else 0
  {
    if s != [] {
      WhereCount(s[1..], p);
      assert s == [s[0]] + s[1..];
      assert Where(s, p) == (if p(s[0]) then [s[0]] else []) + Where(s[1..], p);
    }
  }

  /** Two successive selections are one selection by the conjunction. */
  lemma {:induction false} WhereWhere<T(!new)>(s: seq<T>, p: T -> bool, q: T -> bool, pq: T -> bool)
    requires forall x :: pq(x) == (p(x) && q(x))
    ensures Where(Where(s, p), q) == Where(s, pq)
  {
    if s != [] {
      WhereWhere(s[1..], p, q, pq);
      if p(s[0]) {
        var w := [s[0]] + Where(s[1..], p);
        assert Where(s, p) == w && w[0] == s[0] && w[1..] == Where(s[1..], p);
      } else {
        assert Where(s, p) == [] + Where(s[1..], p) == Where(s[1..], p);
        assert !pq(s[0]);
        assert Where(s, pq) == [] + Where(s[1..], pq);
      }
    }
  }

  /** A selection whose predicate holds of every element keeps them all. */
  lemma {:induction false} WhereKeepsAll<T(!new)>(s: seq<T>, p: T -> bool)
    requires forall k :: 0 <= k < |s| ==> p(s[k])
    ensures Where(s, p) == s
  {
    if s != [] {
      WhereKeepsAll(s[1..], p);
    }
  }

  /** A selection whose predicate holds of no element keeps nothing. */
  lemma {:induction false} WhereNone<T(!new)>(s: seq<T>, p: T -> bool)
    requires forall k :: 0 <= k < |s| ==> !p(s[k])
    ensures Where(s, p) == []
  {
    if s != [] {
      WhereNone(s[1..], p);
    }
  }

  /** Two predicates that agree on the elements give the same selection. */
  lemma {:induction false} WhereCongruent<T(!new)>(s: seq<T>, p: T -> bool, q: T -> bool)
    requires forall k :: 0 <= k < |s| ==> p(s[k]) == q(s[k])
    ensures Where(s, p) == Where(s, q)
  {
    if s != [] {
      WhereCongruent(s[1..], p, q);
    }
  }

  /** A selection from a sequence without repeats has no repeats. */
  lemma {:induction false} WhereDistinct<T(!new)>(s: seq<T>, p: T -> bool)
    requires Distinct(s)
    ensures Distinct(Where(s, p))
  {
    if s != [] {
      assert Distinct(s[1..]);
      WhereDistinct(s[1..], p);
      assert s[0] !in s[1..];
    }
  }

  /** `pd.unique`: the distinct values in order of first appearance. */
  function Unique<T(==,!new)>(s: seq<T>): (r: seq<T>)
    ensures forall x :: x in r <==> x in s
    ensures Distinct(r)
  {
    if s == [] then []
    else
      var u := Unique(s[..|s| - 1]);
      assert s == s[..|s| - 1] + [s[|s| - 1]];
      if s[|s| - 1] in u then u else u + [s[|s| - 1]]
  }

  /** The distinct values come in order of first appearance: each occurrence of a value comes after some occurrence of every earlier one. */
  lemma {:induction false} UniqueOrder<T(!new)>(s: seq<T>)
    ensures forall i, j, k :: 0 <= i < j < |Unique(s)| && 0 <= k < |s| && s[k] == Unique(s)[j] ==> Unique(s)[i] in s[..k]
  {
    if s != [] {
      var n := |s|;
      var init, last := s[..n - 1], s[n - 1];
      var u, r := Unique(init), Unique(s);
      UniqueOrder(init);
      assert r == if last in u then u else u + [last];
      forall i, j, k | 0 <= i < j < |r| && 0 <= k < n && s[k] == r[j]
        ensures r[i] in s[..k]
      {
        if j < |u| {
          if k < n - 1 {
            assert init[k] == u[j];
            assert init[..k] == s[..k];
          } else {
            assert u[j] in init;
            var k' :| 0 <= k' < n - 1 && init[k'] == u[j];
            assert u[i] in init[..k'];
            assert init[..k'] == s[..k'];
            assert s[..k'] <= s[..k];
          }
        } else {
          assert last !in init;
          assert k == n - 1;
          assert r[i] == u[i] && u[i] in init;
          assert init == s[..k];
        }
      }
    }
  }

  /**
   * `r` is `f` with the columns `added` (re)written: the same rows in the same
   * order, and every other cell of every row unchanged.
   */
  ghost predicate Extends(f: Frame, r: Frame, added: set<string>) {
    && r.columns == f.columns + added
    && |r.rows| == |f.rows|
    && forall i :: 0 <= i < |f.rows| ==>
         && r.rows[i].Keys == f.rows[i].Keys + added
         && forall c :: c in f.rows[i] && c !in added ==> r.rows[i][c] == f.rows[i][c]
  }

  lemma ExtendsTrans(f: Frame, g: Frame, h: Frame, a: set<string>, b: set<string>)
    requires Extends(f, g, a) && Extends(g, h, b)
    ensures Extends(f, h, a + b)
  {
  }

  /** A column outside `added` reads the same before and after. */
  lemma ExtendsGet(f: Frame, r: Frame, added: set<string>, c: string)
    requires Extends(f, r, added) && c !in added
    ensures forall i :: 0 <= i < |f.rows| ==> Get(r.rows[i], c) == Get(f.rows[i], c)
  {
  }

  lemma ExtendsWellFormed(f: Frame, r: Frame, added: set<string>)
    requires WellFormed(f) && Extends(f, r, added)
    ensures WellFormed(r)
  {
  }

  /** The row-wise application of `g`, declaring the columns it writes. */
  function MapRows(f: Frame, added: set<string>, g: Row -> Row): (r: Frame)
    ensures r.columns == f.columns + added && |r.rows| == |f.rows|
    ensures forall i :: 0 <= i < |f.rows| ==> r.rows[i] == g(f.rows[i])
  {
    Frame(f.columns + added, seq(|f.rows|, i requires 0 <= i < |f.rows| => g(f.rows[i])))
  }

  /** The columns of `cols` the table has: `[c for c in cols if c in df.columns]` as a set. */
  function Present(cols: seq<string>, columns: set<string>): set<string> {
    set c | c in cols && c in columns
  }

  /** Column assignment `df[name] = values`: adds the column, or overwrites it. */
  function WithColumn(f: Frame, name: string, values: seq<Cell>): (r: Frame)
    requires |values| == |f.rows|
    ensures Extends(f, r, {name})
    ensures forall i :: 0 <= i < |r.rows| ==> r.rows[i][name] == values[i]
  {
    Frame(f.columns + {name}, seq(|f.rows|, i requires 0 <= i < |f.rows| => f.rows[i][name := values[i]]))
  }
}
