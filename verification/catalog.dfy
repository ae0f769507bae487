/**
 * The shapes of the catalog search API's JSON pages and of the emote
 * records saved to `emotes.json`.
 */
module Catalog {

  /** A member of a JSON object: missing, present as `null`, or present with a value. */
  datatype Field<+T> = Absent | Null | Present(value: T)

  /** One element of a page's `data` array. */
  datatype Entry = Entry(
    id: int,
    name: Field<string>,
    creatorName: Field<string>,
    price: Field<int>,
    created: Field<string>)

  /** One parsed response body of the search endpoint. */
  datatype Page = Page(data: Field<seq<Entry>>, nextPageCursor: Field<string>)

  /** One saved emote record. */
  datatype Item = Item(
    id: int,
    name: Field<string>,
    creator: Field<string>,
    price: Field<int>,
    created: Field<string>)

  /** The entries a page is scanned over: `data.data || []`. */
  function Entries(p: Page): (es: seq<Entry>)
    ensures p.data.Present? ==> es == p.data.value
    ensures !p.data.Present? ==> es == []
  {
    match p.data
    case Present(es) => es
    case _ => []
  }

  /** True when the page's cursor is truthy, that is, present and non-empty. */
  predicate HasNext(p: Page)
  {
    p.nextPageCursor.Present? && p.nextPageCursor.value != ""
  }

  /** The page's cursor, with a missing or `null` cursor read as the empty string. */
  function NextCursor(p: Page): (c: string)
    ensures c != "" <==> HasNext(p)
    ensures HasNext(p) ==> p.nextPageCursor == Present(c)
  {
    match p.nextPageCursor
    case Present(c) => c
    case _ => ""
  }

  /** The record saved for a new entry: five fields copied, `creatorName` renamed to `creator`. */
  function Project(e: Entry): (it: Item)
    ensures Unproject(it) == e
  {
    Item(e.id, e.name, e.creatorName, e.price, e.created)
  }

  /** The entry a saved record was made from: nothing is lost by `Project`. */
  function Unproject(it: Item): Entry
  {
    Entry(it.id, it.name, it.creator, it.price, it.created)
  }

  /** Distinct entries are saved as distinct records. */
  lemma ProjectInjective(a: Entry, b: Entry)
    requires Project(a) == Project(b)
    ensures a == b
  {
  }

  /** The ids of a sequence of saved records. */
  function Ids(items: seq<Item>): (ids: set<int>)
    ensures forall i :: 0 <= i < |items| ==> items[i].id in ids
    ensures forall id :: id in ids ==> exists i :: 0 <= i < |items| && items[i].id == id
  {
    set i | 0 <= i < |items| :: items[i].id
  }
}
