/**
 * The `articles` table behind the API. The store itself (a SQL database) is
 * foreign: the model keeps its rows as a sequence in insertion order,
 * assigns ids as an auto-incrementing primary key does, and fills an
 * unbound `created_at` with the store's current timestamp.
 */
module Store {
  import opened Wrappers
  import opened Js
  import opened Slugs

  /** One row; the fields are the table's columns in the order of the schema. */
  datatype Article = Article(
    id: nat,
    title: string,
    slug: string,
    contentHtml: Value,
    metaDescription: Value,
    keywords: Value,
    featuredImage: Value,
    status: Value,
    category: Value,
    scheduledAt: Value,
    createdAt: Value)

  /**
   * The parameters bound to one INSERT statement, except the slug: both
   * handlers bind `slugify(title)` there, so the row computes it from the
   * title. `createdAt == None` means the statement does not name the
   * column, so its default applies.
   */
  datatype Insertion = Insertion(
    title: string,
    contentHtml: Value,
    metaDescription: Value,
    keywords: Value,
    featuredImage: Value,
    status: Value,
    category: Value,
    scheduledAt: Value,
    createdAt: Option<Value>)

  /** The row an insertion creates under id `id` when the store's clock reads `timestamp`. */
  function RowOf(ins: Insertion, id: nat, timestamp: string): (a: Article)
    ensures a.id == id && a.title == ins.title && IsSlug(a.slug)
    ensures ins.createdAt.Some? ==> a.createdAt == ins.createdAt.value
    ensures ins.createdAt.None? ==> a.createdAt == Str(timestamp)
  {
    SlugifyShape(ins.title);
    Article(id, ins.title, Slugify(ins.title), ins.contentHtml, ins.metaDescription, ins.keywords,
            ins.featuredImage, ins.status, ins.category, ins.scheduledAt,
            if ins.createdAt.Some? then ins.createdAt.value else Str(timestamp))
  }

  /** The rows a batch of insertions creates, in order, with consecutive ids from `firstId`. */
  function RowsOf(ins: seq<Insertion>, firstId: nat, timestamp: string): (rows: seq<Article>)
    ensures |rows| == |ins|
    ensures forall i :: 0 <= i < |ins| ==> rows[i] == RowOf(ins[i], firstId + i, timestamp)
  {
    if ins == [] then [] else [RowOf(ins[0], firstId, timestamp)] + RowsOf(ins[1..], firstId + 1, timestamp)
  }

  /**
   * The table's invariant: ids increase with insertion order and stay below
   * the next id to hand out, and every slug is the slug of its row's title.
   */
  predicate WellFormed(rows: seq<Article>, nextId: nat) {
    (forall i, j :: 0 <= i < j < |rows| ==> rows[i].id < rows[j].id) &&
    (forall i :: 0 <= i < |rows| ==> 0 < rows[i].id < nextId) &&
    (forall i :: 0 <= i < |rows| ==> rows[i].slug == Slugify(rows[i].title))
  }

  /** Appending the rows of a batch of insertions keeps the invariant. */
  lemma AppendKeepsWellFormed(rows: seq<Article>, nextId: nat, ins: seq<Insertion>, timestamp: string)
    ensures WellFormed(rows, nextId) && 0 < nextId ==>
              WellFormed(rows + RowsOf(ins, nextId, timestamp), nextId + |ins|)
  {
    if WellFormed(rows, nextId) && 0 < nextId {
      var added := RowsOf(ins, nextId, timestamp);
      var all := rows + added;
      forall i, j | 0 <= i < j < |all| ensures all[i].id < all[j].id {
        if j >= |rows| {
          assert all[j] == added[j - |rows|];
          if i >= |rows| {
            assert all[i] == added[i - |rows|];
          }
        }
      }
      forall i | 0 <= i < |all| ensures 0 < all[i].id < nextId + |ins| && all[i].slug == Slugify(all[i].title) {
        if i >= |rows| {
          assert all[i] == added[i - |rows|];
        }
      }
    }
  }

  /** Appending the row of one insertion keeps the invariant. */
  lemma AppendOneKeepsWellFormed(rows: seq<Article>, nextId: nat, ins: Insertion, timestamp: string)
    ensures WellFormed(rows, nextId) && 0 < nextId ==>
              WellFormed(rows + [RowOf(ins, nextId, timestamp)], nextId + 1)
  {
    assert RowsOf([ins], nextId, timestamp) == [RowOf(ins, nextId, timestamp)];
    AppendKeepsWellFormed(rows, nextId, [ins], timestamp);
  }

  /** The table: its rows in insertion order and the id the next insert receives. */
  class Table {
    var rows: seq<Article>
    var nextId: nat

    ghost predicate Valid()
      reads this
    {
      0 < nextId && WellFormed(rows, nextId)
    }

    constructor ()
      ensures Valid() && rows == [] && nextId == 1
    {
      rows := [];
      nextId := 1;
    }

    /** A single INSERT that the store reports as successful. */
    method Insert(ins: Insertion, timestamp: string)
      requires Valid()
      modifies this
      ensures Valid()
      ensures rows == old(rows) + [RowOf(ins, old(nextId), timestamp)]
      ensures nextId == old(nextId) + 1
    {
      AppendOneKeepsWellFormed(rows, nextId, ins, timestamp);
      rows := rows + [RowOf(ins, nextId, timestamp)];
      nextId := nextId + 1;
    }

    /** A batch of INSERTs that the store reports as successful: all rows, in order. */
    method InsertAll(ins: seq<Insertion>, timestamp: string)
      requires Valid()
      modifies this
      ensures Valid()
      ensures rows == old(rows) + RowsOf(ins, old(nextId), timestamp)
      ensures nextId == old(nextId) + |ins|
    {
      AppendKeepsWellFormed(rows, nextId, ins, timestamp);
      rows := rows + RowsOf(ins, nextId, timestamp);
      nextId := nextId + |ins|;
    }
  }
}
