/** A value that may be absent; used for the optional growing segment and for
    food placement that can run out of supplied candidates. */
module Wrappers {
  datatype Option<+T> = None | Some(value: T)
}

/** The square tile grid every entity of the game lives on, and the facts about
    tile sequences (the snake) that the simulation relies on. */
module Grid {

  /** One board tile; x grows rightward, y grows downward. */
  datatype Tile = Tile(x: int, y: int)

  /** The tile lies on an n-by-n board. */
  predicate InBounds(n: int, t: Tile) {
    0 <= t.x < n && 0 <= t.y < n
  }

  predicate AllInBounds(n: int, s: seq<Tile>) {
    forall i :: 0 <= i < |s| ==> InBounds(n, s[i])
  }

  /** No tile occurs twice. */
  predicate Distinct(s: seq<Tile>) {
    forall i, j :: 0 <= i < j < |s| ==> s[i] != s[j]
  }

  /** The two tiles share an edge. */
  predicate Neighbours(a: Tile, b: Tile) {
    (a.y == b.y && (a.x - b.x == 1 || b.x - a.x == 1)) ||
    (a.x == b.x && (a.y - b.y == 1 || b.y - a.y == 1))
  }

  /** Consecutive tiles share an edge. */
  predicate Connected(s: seq<Tile>) {
    forall i :: 0 < i < |s| ==> Neighbours(s[i-1], s[i])
  }

  /** One of the four arrow directions. */
  predicate IsUnit(dx: int, dy: int) {
    (dx == 0 && (dy == 1 || dy == -1)) || (dy == 0 && (dx == 1 || dx == -1))
  }

  /** An arrow direction or standing still. */
  predicate ValidDirection(dx: int, dy: int) {
    IsUnit(dx, dy) || (dx == 0 && dy == 0)
  }

  /** The tile reached from t by moving (dx, dy). */
  function Shift(t: Tile, dx: int, dy: int): (r: Tile)
    ensures IsUnit(dx, dy) ==> Neighbours(r, t)
    ensures r.x - t.x == dx && r.y - t.y == dy
  {
    Tile(t.x + dx, t.y + dy)
  }

  /** Putting a tile the snake does not occupy in front of any prefix of it
      keeps the tiles distinct. */
  lemma {:induction false} PrependFreshDistinct(h: Tile, s: seq<Tile>, k: nat)
    requires Distinct(s) && h !in s && k <= |s|
    ensures Distinct([h] + s[..k])
  {
    var t := [h] + s[..k];
    forall i, j | 0 <= i < j < |t|
      ensures t[i] != t[j]
    {
      assert t[j] == s[j-1];
      if i > 0 {
        assert t[i] == s[i-1];
      }
    }
  }

  /** A neighbour of the first tile, put in front of any non-empty prefix,
      keeps the sequence connected. */
  lemma {:induction false} PrependNeighbourConnected(h: Tile, s: seq<Tile>, k: nat)
    requires Connected(s) && 0 < k <= |s| && Neighbours(h, s[0])
    ensures Connected([h] + s[..k])
  {
    var t := [h] + s[..k];
    forall i | 0 < i < |t|
      ensures Neighbours(t[i-1], t[i])
    {
      if i > 1 {
        assert t[i-1] == s[i-2] && t[i] == s[i-1];
      }
    }
  }

  /** A tile on the board in front of a prefix of an on-board sequence leaves
      every tile on the board. */
  lemma {:induction false} PrependInBounds(n: int, h: Tile, s: seq<Tile>, k: nat)
    requires AllInBounds(n, s) && InBounds(n, h) && k <= |s|
    ensures AllInBounds(n, [h] + s[..k])
  {
    var t := [h] + s[..k];
    forall i | 0 < i < |t|
      ensures InBounds(n, t[i])
    {
      assert t[i] == s[i-1];
    }
  }
}
