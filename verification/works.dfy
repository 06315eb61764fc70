/**
 * A work of the portfolio catalog, as a node of the content API returns it.
 * Only the fields the catalog logic reads are kept; the media reference is
 * not part of this model.
 */
module Works {
  import opened Values

  datatype Category = Category(id: string, name: string, slug: string)

  /** One `{ key, value }` entry of a work's generic `metaData` list. */
  datatype MetaEntry = MetaEntry(key: string, value: JsValue)

  /** The custom-field group `works { skill }` of the nested shape. */
  datatype WorksGroup = WorksGroup(skill: JsValue)

  /**
   * `works` is the nested custom-field group (None: absent), `skill` the
   * direct field (Undefined: absent), `metaData` the generic list (None:
   * absent) and `categories` the category nodes (None: the categories object
   * or its `nodes` is missing).
   */
  datatype Work = Work(
    id: string,
    title: JsValue,
    slug: string,
    menuOrder: Option<int>,
    excerpt: JsValue,
    works: Option<WorksGroup>,
    skill: JsValue,
    metaData: Option<seq<MetaEntry>>,
    categories: Option<seq<Category>>)

  /** The ordering key `work.menuOrder || 0`. */
  function MenuKey(w: Work): (k: int)
    ensures w.menuOrder.None? ==> k == 0
    ensures w.menuOrder.Some? ==> k == w.menuOrder.value
  {
    match w.menuOrder
    case None => 0
    case Some(n) => n
  }

  /** The route of a work's detail page, `/all-works/` followed by its slug. */
  function DetailPath(slug: string): string {
    "/all-works/" + slug
  }
}
