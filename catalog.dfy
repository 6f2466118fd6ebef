/** The built-in catalog every group starts with: system tabs, the items under them and the
    store buttons. */
module Catalog {
  import opened Wrappers

  /** A system tab (`CatalogTab` without its `groupId`). */
  datatype CatalogTab = CatalogTab(id: string, name: string, isSystem: bool, sortOrder: int)

  datatype CatalogItem = CatalogItem(id: string, tabId: string, name: string, isSystem: bool, sortOrder: int)

  datatype StoreButton = StoreButton(id: string, groupId: Option<string>, name: string, isSystem: bool, sortOrder: int)

  const SYSTEM_TABS: seq<CatalogTab> := [
    CatalogTab("sys-tab-detergent", "洗剤", true, 10),
    CatalogTab("sys-tab-washroom", "洗面", true, 20),
    CatalogTab("sys-tab-beauty", "美容", true, 30),
    CatalogTab("sys-tab-kitchen", "キッチン", true, 40),
    CatalogTab("sys-tab-store", "店舗依頼", true, 50)
  ]

  const SYSTEM_ITEMS: seq<CatalogItem> := [
    CatalogItem("sys-item-detergent", "sys-tab-detergent", "洗剤", true, 10),
    CatalogItem("sys-item-refill", "sys-tab-detergent", "詰替え", true, 20),
    CatalogItem("sys-item-tissue", "sys-tab-washroom", "ティッシュ", true, 10),
    CatalogItem("sys-item-toilet-paper", "sys-tab-washroom", "トイレットペーパー", true, 20),
    CatalogItem("sys-item-hand-paper", "sys-tab-washroom", "ハンドペーパー", true, 30),
    CatalogItem("sys-item-cotton", "sys-tab-beauty", "コットン", true, 10),
    CatalogItem("sys-item-shampoo", "sys-tab-beauty", "シャンプー", true, 20),
    CatalogItem("sys-item-conditioner", "sys-tab-beauty", "リンス", true, 30),
    CatalogItem("sys-item-kitchen-paper", "sys-tab-kitchen", "キッチンペーパー", true, 10),
    CatalogItem("sys-item-carrot", "sys-tab-store", "にんじん", true, 10)
  ]

  const SYSTEM_STORES: seq<StoreButton> := [
    StoreButton("sys-store-summit", None, "サミット", true, 10),
    StoreButton("sys-store-nitori", None, "ニトリ", true, 20),
    StoreButton("sys-store-ikea", None, "IKEA", true, 30),
    StoreButton("sys-store-aeon", None, "イオン", true, 40),
    StoreButton("sys-store-gyomu", None, "業務スーパー", true, 50)
  ]

  /** The ids of a list of catalog entries, in order. */
  function Ids<T>(entries: seq<T>, id: T -> string): (ids: seq<string>)
    ensures |ids| == |entries| && forall i :: 0 <= i < |entries| ==> ids[i] == id(entries[i])
  {
    seq(|entries|, i requires 0 <= i < |entries| => id(entries[i]))
  }

  function TabIds(tabs: seq<CatalogTab>): seq<string> {
    Ids(tabs, (t: CatalogTab) => t.id)
  }

  predicate Unique(ids: seq<string>) {
    forall i, j :: 0 <= i < j < |ids| ==> ids[i] != ids[j]
  }

  /** Every item sits under a tab of `tabs`. */
  predicate ItemsUnderTabs(items: seq<CatalogItem>, tabs: seq<CatalogTab>) {
    forall i :: 0 <= i < |items| ==> items[i].tabId in TabIds(tabs)
  }

  /** The shape the layout query relies on: ids unique per kind, every item under a known tab,
      everything marked as a system entry and no store bound to a group. */
  predicate Consistent(tabs: seq<CatalogTab>, items: seq<CatalogItem>, stores: seq<StoreButton>) {
    && Unique(TabIds(tabs)) && Unique(Ids(items, (i: CatalogItem) => i.id)) && Unique(Ids(stores, (s: StoreButton) => s.id))
    && ItemsUnderTabs(items, tabs)
    && (forall i :: 0 <= i < |tabs| ==> tabs[i].isSystem)
    && (forall i :: 0 <= i < |items| ==> items[i].isSystem)
    && (forall i :: 0 <= i < |stores| ==> stores[i].isSystem && stores[i].groupId.None?)
  }

  /** The built-in catalog as written is consistent. */
  lemma SystemCatalogConsistent()
    ensures Consistent(SYSTEM_TABS, SYSTEM_ITEMS, SYSTEM_STORES)
  {
    SystemTabIds();
    SystemItemIds();
    SystemStoreIds();
    SystemItemsUnderTabs();
  }

  lemma SystemTabIds()
    ensures Unique(TabIds(SYSTEM_TABS))
  {
    assert TabIds(SYSTEM_TABS) ==
      ["sys-tab-detergent", "sys-tab-washroom", "sys-tab-beauty", "sys-tab-kitchen", "sys-tab-store"];
  }

  lemma SystemItemIds()
    ensures Unique(Ids(SYSTEM_ITEMS, (i: CatalogItem) => i.id))
  {
    assert Ids(SYSTEM_ITEMS, (i: CatalogItem) => i.id) ==
      ["sys-item-detergent", "sys-item-refill", "sys-item-tissue", "sys-item-toilet-paper",
       "sys-item-hand-paper", "sys-item-cotton", "sys-item-shampoo", "sys-item-conditioner",
       "sys-item-kitchen-paper", "sys-item-carrot"];
  }

  lemma SystemStoreIds()
    ensures Unique(Ids(SYSTEM_STORES, (s: StoreButton) => s.id))
  {
    assert Ids(SYSTEM_STORES, (s: StoreButton) => s.id) ==
      ["sys-store-summit", "sys-store-nitori", "sys-store-ikea", "sys-store-aeon", "sys-store-gyomu"];
  }

  lemma SystemItemsUnderTabs()
    ensures ItemsUnderTabs(SYSTEM_ITEMS, SYSTEM_TABS)
  {
    var ids := TabIds(SYSTEM_TABS);
    assert ids == ["sys-tab-detergent", "sys-tab-washroom", "sys-tab-beauty", "sys-tab-kitchen", "sys-tab-store"];
    forall i | 0 <= i < |SYSTEM_ITEMS| ensures SYSTEM_ITEMS[i].tabId in ids {
      var t := SYSTEM_ITEMS[i].tabId;
      assert t == ids[0] || t == ids[1] || t == ids[2] || t == ids[3] || t == ids[4];
    }
  }
}
