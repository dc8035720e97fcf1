/**
 * The two SELECTs the read handlers issue, over the rows of the table:
 * `SELECT * FROM articles WHERE slug = ?` (first match in table order) and
 * `SELECT * FROM articles ORDER BY created_at DESC`.
 */
module Queries {
  import opened Wrappers
  import opened Js
  import opened Store

  // ---------------------------------------------------------------------
  // Lookup by slug
  // ---------------------------------------------------------------------

  /** The first row, in table order, whose slug equals `slug`. */
  function FirstWithSlug(rows: seq<Article>, slug: string): (r: Option<Article>)
    ensures r.None? <==> forall i :: 0 <= i < |rows| ==> rows[i].slug != slug
    ensures r.Some? ==> exists i :: 0 <= i < |rows| && rows[i] == r.value && rows[i].slug == slug &&
                                    forall j :: 0 <= j < i ==> rows[j].slug != slug
  {
    if rows == [] then None
    else if rows[0].slug == slug then Some(rows[0])
    else
      var r := FirstWithSlug(rows[1..], slug);
      assert r.Some? ==> exists i :: 1 <= i < |rows| && rows[i] == r.value && rows[i].slug == slug &&
                                       forall j :: 0 <= j < i ==> rows[j].slug != slug by {
        if r.Some? {
          var k :| 0 <= k < |rows| - 1 && rows[1..][k] == r.value && rows[1..][k].slug == slug &&
                   forall j :: 0 <= j < k ==> rows[1..][j].slug != slug;
          assert rows[k + 1] == r.value;
          forall j | 0 <= j < k + 1 ensures rows[j].slug != slug {
            if j > 0 { assert rows[j] == rows[1..][j - 1]; }
          }
        }
      }
      r
  }

  /**
   * Rows appended later never shadow an earlier match: a lookup after new
   * rows are added finds the old first match if there was one, and
   * otherwise the first match among the new rows.
   */
  lemma {:induction false} FirstWithSlugAfterAppend(rows: seq<Article>, added: seq<Article>, slug: string)
    ensures FirstWithSlug(rows + added, slug) ==
            if FirstWithSlug(rows, slug).Some? then FirstWithSlug(rows, slug) else FirstWithSlug(added, slug)
  {
    if rows == [] {
      assert rows + added == added;
    } else {
      assert (rows + added)[1..] == rows[1..] + added;
      FirstWithSlugAfterAppend(rows[1..], added, slug);
    }
  }

  // ---------------------------------------------------------------------
  // ORDER BY created_at DESC
  // ---------------------------------------------------------------------

  /**
   * The store's ordering between storage classes: NULL first, then
   * numbers (a JavaScript boolean is bound as 0 or 1), then text; anything
   * else last.
   */
  function Rank(v: Value): nat {
    match v
    case Undefined => 0
    case Null => 0
    case Bool(_) => 1
    case Num(_) => 1
    case Str(_) => 2
    case Arr(_) => 3
    case Obj(_) => 3
  }

  function Numeric(v: Value): real
    requires Rank(v) == 1
  {
    match v
    case Bool(b) => if b then 1.0 else 0.0
    case Num(n) => n
  }

  /** Text compares code point by code point, as the binary collation compares UTF-8 bytes. */
  predicate TextLe(a: string, b: string) {
    a == [] || (b != [] && (a[0] < b[0] || (a[0] == b[0] && TextLe(a[1..], b[1..]))))
  }

  /** `a` sorts no later than `b` in ascending order. */
  predicate KeyLe(a: Value, b: Value) {
    Rank(a) < Rank(b) ||
    (Rank(a) == Rank(b) &&
      (Rank(a) == 1 ==> Numeric(a) <= Numeric(b)) &&
      (Rank(a) == 2 ==> TextLe(a.s, b.s)))
  }

  lemma {:induction false} TextLeTotal(a: string, b: string)
    ensures TextLe(a, b) || TextLe(b, a)
  {
    if a != [] && b != [] && a[0] == b[0] {
      TextLeTotal(a[1..], b[1..]);
    }
  }

  lemma {:induction false} TextLeTransitive(a: string, b: string, c: string)
    requires TextLe(a, b) && TextLe(b, c)
    ensures TextLe(a, c)
  {
    if a != [] && b != [] && c != [] && a[0] == b[0] && b[0] == c[0] {
      TextLeTransitive(a[1..], b[1..], c[1..]);
    }
  }

  lemma KeyLeTotal(a: Value, b: Value)
    ensures KeyLe(a, b) || KeyLe(b, a)
  {
    if Rank(a) == Rank(b) == 2 {
      TextLeTotal(a.s, b.s);
    }
  }

  lemma KeyLeTransitive(a: Value, b: Value, c: Value)
    requires KeyLe(a, b) && KeyLe(b, c)
    ensures KeyLe(a, c)
  {
    if Rank(a) == Rank(b) == Rank(c) == 2 {
      TextLeTransitive(a.s, b.s, c.s);
    }
  }

  /** Every row comes no later than an older one: `created_at` never increases along the list. */
  predicate NewestFirstOrder(rows: seq<Article>) {
    forall i, j :: 0 <= i < j < |rows| ==> KeyLe(rows[j].createdAt, rows[i].createdAt)
  }

  /** Places `a` into a list already in newest-first order. */
  function InsertByAge(a: Article, rows: seq<Article>): (r: seq<Article>)
    requires NewestFirstOrder(rows)
    ensures multiset(r) == multiset(rows) + multiset{a}
    ensures NewestFirstOrder(r)
  {
    if rows == [] then [a]
    else if KeyLe(rows[0].createdAt, a.createdAt) then
      var r := [a] + rows;
      forall j | 1 <= j < |r| ensures KeyLe(r[j].createdAt, a.createdAt) {
        if j > 1 { KeyLeTransitive(r[j].createdAt, rows[0].createdAt, a.createdAt); }
      }
      r
    else
      var rest := InsertByAge(a, rows[1..]);
      assert multiset(rows) == multiset{rows[0]} + multiset(rows[1..]) by {
        assert rows == [rows[0]] + rows[1..];
      }
      KeyLeTotal(rows[0].createdAt, a.createdAt);
      forall k | 0 <= k < |rest| ensures KeyLe(rest[k].createdAt, rows[0].createdAt) {
        assert rest[k] in multiset(rest);
        if rest[k] != a {
          assert rest[k] in multiset(rows[1..]);
          var m :| 0 <= m < |rows[1..]| && rows[1..][m] == rest[k];
          assert rows[m + 1] == rest[k];
        }
      }
      [rows[0]] + rest
  }

  /** `ORDER BY created_at DESC`: the same rows, newest first (ties in an unspecified order). */
  function NewestFirst(rows: seq<Article>): (r: seq<Article>)
    ensures multiset(r) == multiset(rows)
    ensures NewestFirstOrder(r)
  {
    if rows == [] then []
    else
      assert rows == [rows[0]] + rows[1..];
      InsertByAge(rows[0], NewestFirst(rows[1..]))
  }
}
