/** The gallery page: its category tabs, its items, the category filter and
    the lookups of the category badge and of the enlarged image. */
module GalleryPage {
  import opened Common
  import opened Seqs

  datatype Category = Category(id: string, name: string)

  const Categories: seq<Category> := [
    Category("all", "Tous"),
    Category("classique", "Classique"),
    Category("hybride", "Hybride"),
    Category("volume", "Volume")]

  /** An item of the gallery; the image itself is left to the display. */
  datatype GalleryItem = GalleryItem(id: nat, category: string, alt: string)

  const GalleryItems: seq<GalleryItem> := [
    GalleryItem(2, "classique", "Extension Classique"),
    GalleryItem(3, "volume", "Volume Russe"),
    GalleryItem(4, "hybride", "Extension Hybride"),
    GalleryItem(7, "classique", "Extension Classique"),
    GalleryItem(8, "volume", "Volume Russe"),
    GalleryItem(9, "hybride", "Extension Hybride")]

  /** The filter callback `item => item.category === activeCategory`. */
  function InCategory(category: string): GalleryItem -> bool
  {
    (item: GalleryItem) => item.category == category
  }

  /** `filteredItems`: every item for "all", otherwise the items of that
      category in gallery order. */
  function FilteredItems(items: seq<GalleryItem>, activeCategory: string): (r: seq<GalleryItem>)
    ensures activeCategory == "all" ==> r == items
    ensures activeCategory != "all" ==>
      forall x :: multiset(r)[x] == if x.category == activeCategory then multiset(items)[x] else 0
    ensures activeCategory != "all" ==> forall i :: 0 <= i < |r| ==> r[i].category == activeCategory
  {
    if activeCategory == "all" then items else Filter(items, InCategory(activeCategory))
  }

  /** The filter keeps the gallery order. */
  lemma FilterKeepsOrder(a: seq<GalleryItem>, b: seq<GalleryItem>, activeCategory: string)
    ensures FilteredItems(a + b, activeCategory) == FilteredItems(a, activeCategory) + FilteredItems(b, activeCategory)
  {
    if activeCategory != "all" {
      FilterAppend(a, b, InCategory(activeCategory));
    }
  }

  /** A category no item has shows an empty gallery. */
  lemma EmptyTab(items: seq<GalleryItem>, activeCategory: string)
    requires activeCategory != "all"
    requires forall i :: 0 <= i < |items| ==> items[i].category != activeCategory
    ensures FilteredItems(items, activeCategory) == []
  {
  }

  /** `categories.find(c => c.id === item.category)`. */
  function FindCategory(categories: seq<Category>, id: string): (r: Option<Category>)
    ensures r.Some? ==> r.value in categories && r.value.id == id
    ensures r.None? ==> forall i :: 0 <= i < |categories| ==> categories[i].id != id
  {
    if categories == [] then None
    else if categories[0].id == id then Some(categories[0])
    else FindCategory(categories[1..], id)
  }

  /** `find` returns the first category with the id. */
  lemma {:induction false} FindCategoryFirst(categories: seq<Category>, id: string, k: nat)
    requires k < |categories| && categories[k].id == id
    requires forall j :: 0 <= j < k ==> categories[j].id != id
    ensures FindCategory(categories, id) == Some(categories[k])
  {
    if k > 0 {
      FindCategoryFirst(categories[1..], id, k - 1);
    }
  }

  /** Every item's category is a tab, so every badge has a name. */
  lemma EveryItemHasBadge()
    ensures forall i :: 0 <= i < |GalleryItems| ==> FindCategory(Categories, GalleryItems[i].category).Some?
  {
    assert FindCategory(Categories, "classique").Some?;
    assert FindCategory(Categories, "hybride").Some?;
    assert FindCategory(Categories, "volume").Some?;
    assert forall i :: 0 <= i < |GalleryItems| ==> GalleryItems[i].category in {"classique", "hybride", "volume"};
  }

  /** `galleryItems.find(i => i.id === selectedImage)`. */
  function FindItem(items: seq<GalleryItem>, id: nat): (r: Option<GalleryItem>)
    ensures r.Some? ==> r.value in items && r.value.id == id
    ensures r.None? ==> forall i :: 0 <= i < |items| ==> items[i].id != id
  {
    if items == [] then None
    else if items[0].id == id then Some(items[0])
    else FindItem(items[1..], id)
  }

  /** `find` returns the first item with the id. */
  lemma {:induction false} FindItemFirst(items: seq<GalleryItem>, id: nat, k: nat)
    requires k < |items| && items[k].id == id
    requires forall j :: 0 <= j < k ==> items[j].id != id
    ensures FindItem(items, id) == Some(items[k])
  {
    if k > 0 {
      FindItemFirst(items[1..], id, k - 1);
    }
  }

  /** A list whose ids increase has no two items with the same id. */
  predicate IdsAscending(items: seq<GalleryItem>)
  {
    forall i, j :: 0 <= i < j < |items| ==> items[i].id < items[j].id
  }

  /** With distinct ids, the lookup by an item's id finds that item. */
  lemma {:induction false} FindItemOfId(items: seq<GalleryItem>, k: nat)
    requires IdsAscending(items) && k < |items|
    ensures FindItem(items, items[k].id) == Some(items[k])
  {
    FindItemFirst(items, items[k].id, k);
  }

  /** `selectedImage && ...`: the lightbox opens for a non-zero id. */
  predicate LightboxOpen(selectedImage: Option<nat>)
  {
    selectedImage.Some? && selectedImage.value != 0
  }

  /** Clicking any item opens the lightbox on exactly that item. */
  lemma LightboxShowsClicked(k: nat)
    requires k < |GalleryItems|
    ensures LightboxOpen(Some(GalleryItems[k].id))
    ensures FindItem(GalleryItems, GalleryItems[k].id) == Some(GalleryItems[k])
  {
    assert IdsAscending(GalleryItems);
    FindItemOfId(GalleryItems, k);
  }
}
