/** The equipment atlas: the two-level category filter, its reset rule, and the
    deep-link that opens one piece of equipment and brings its category into view. */
module Equipments {
  import opened Wrappers
  import Seqs
  import opened Catalogue

  /** The sub-category value that selects every sub-category. */
  const AllSubs: string := "全部"

  /** `CATEGORY_HIERARCHY`: the sub-categories listed for each major category. */
  function SubCategories(major: string): Option<seq<string>>
  {
    match major
    case "农用动力机械" => Some([AllSubs, "拖拉机", "农用内燃机", "其他农用动力机械"])
    case "农用搬运机械" => Some([AllSubs, "农用运输机械", "农用装卸机械", "其他农用搬运机械"])
    case "农用基本建设机械" => Some([AllSubs, "挖掘机械", "平地机械", "清理机械", "其他农田基本建设机械"])
    case _ => None
  }

  /** `MAJOR_CATEGORIES`, the keys of the hierarchy in declaration order. */
  const MajorCategories: seq<string> := ["农用动力机械", "农用搬运机械", "农用基本建设机械"]

  /** The hierarchy lists a sub-category list exactly for the three major categories,
      and each list opens with the select-all value. */
  lemma HierarchySpec(major: string)
    ensures SubCategories(major).Some? <==> major in MajorCategories
    ensures SubCategories(major).Some? ==> |SubCategories(major).value| > 1 && SubCategories(major).value[0] == AllSubs
  {
  }

  /** The hierarchy lists the item's type under the item's category. */
  predicate Listed(e: Equipment)
  {
    var subs := SubCategories(e.category);
    subs.Some? && e.kind in subs.value
  }

  /** The test of `filteredEquipment` for one item. */
  predicate Shows(major: string, sub: string, e: Equipment)
  {
    e.category == major && (sub == AllSubs || e.kind == sub)
  }

  /** `filteredEquipment`. */
  function FilteredEquipment(es: seq<Equipment>, major: string, sub: string): seq<Equipment>
  {
    Seqs.Filter(es, (e: Equipment) => Shows(major, sub, e))
  }

  /** The list holds exactly the equipment of the major category whose type is the
      sub-category (any type under `全部`), in catalogue order. */
  lemma FilteredEquipmentSpec(es: seq<Equipment>, major: string, sub: string)
    ensures var r := FilteredEquipment(es, major, sub);
            && (forall e :: e in r <==> e in es && e.category == major && (sub == AllSubs || e.kind == sub))
            && var idx := Seqs.PassingIndices(es, (e: Equipment) => Shows(major, sub, e));
            && |idx| == |r|
            && (forall k :: 0 <= k < |r| ==> idx[k] < |es| && r[k] == es[idx[k]])
            && (forall j, k :: 0 <= j < k < |idx| ==> idx[j] < idx[k])
  {
    Seqs.FilterIsSubsequence(es, (e: Equipment) => Shows(major, sub, e));
  }

  /** Narrowing to a sub-category keeps a part of what `全部` shows. */
  lemma SubNarrows(es: seq<Equipment>, major: string, sub: string)
    ensures forall e :: e in FilteredEquipment(es, major, sub) ==> e in FilteredEquipment(es, major, AllSubs)
    ensures |FilteredEquipment(es, major, sub)| <= |FilteredEquipment(es, major, AllSubs)|
  {
    Seqs.FilterFilter(es, (e: Equipment) => Shows(major, AllSubs, e), (e: Equipment) => Shows(major, sub, e),
                      (e: Equipment) => Shows(major, sub, e));
  }

  class EquipmentPage {
    /** The catalogue (`EQUIPMENT`). */
    const catalogue: seq<Equipment>
    var majorCategory: string
    var subCategory: string

    /** The page opens on the first major category with every sub-category. */
    constructor(catalogue: seq<Equipment>)
      ensures this.catalogue == catalogue
      ensures majorCategory == MajorCategories[0] && subCategory == AllSubs
    {
      this.catalogue := catalogue;
      majorCategory := MajorCategories[0];
      subCategory := AllSubs;
    }

    /** The equipment the cards show. */
    function Visible(): seq<Equipment>
      reads this
    {
      FilteredEquipment(catalogue, majorCategory, subCategory)
    }

    /** `handleMajorCategoryChange`: a different major category starts from `全部`;
        choosing the current one changes nothing. */
    method HandleMajorCategoryChange(category: string)
      modifies this
      ensures category != old(majorCategory) ==> majorCategory == category && subCategory == AllSubs
      ensures category == old(majorCategory) ==> majorCategory == old(majorCategory) && subCategory == old(subCategory)
      ensures Visible() == FilteredEquipment(catalogue, category, if category != old(majorCategory) then AllSubs else old(subCategory))
    {
      if category != majorCategory {
        majorCategory := category;
        subCategory := AllSubs;
      }
    }

    /** The deep-link effect. With an item named by the URL (`selectedItem`), the major
        category becomes its category, and the sub-category its type when the hierarchy
        lists that type under the category, so that the item is among the cards behind
        the detail view. Without one, an item named in the route state is looked up, and
        its id is what the URL is set to. */
    method SyncDeepLink(urlId: Option<string>, stateId: Option<string>) returns (newUrlId: Option<string>)
      modifies this
      ensures var item := FindEquipment(catalogue, urlId);
              item.Some? ==>
                && majorCategory == item.value.category
                && subCategory == (if Listed(item.value) then item.value.kind else old(subCategory))
                && newUrlId == None
      ensures var item := FindEquipment(catalogue, urlId);
              item.Some? && Listed(item.value) ==> item.value in Visible()
      ensures var item := FindEquipment(catalogue, urlId);
              item.None? ==>
                && majorCategory == old(majorCategory) && subCategory == old(subCategory)
                && newUrlId == (var target := FindEquipment(catalogue, stateId); if target.Some? then Some(target.value.id) else None)
    {
      var item := FindEquipment(catalogue, urlId);
      newUrlId := None;
      if item.Some? {
        majorCategory := item.value.category;
        if Listed(item.value) {
          subCategory := item.value.kind;
        }
        FilteredEquipmentSpec(catalogue, majorCategory, subCategory);
      } else {
        var target := FindEquipment(catalogue, stateId);
        if target.Some? {
          newUrlId := Some(target.value.id);
        }
      }
    }
  }
}
