/** The material library page: the facet configuration of each category tab, facet
    toggling, the search, sorting, twelve-per-page paging and the comparison basket. */
module Materials {
  import opened Wrappers
  import opened Text
  import JsObject
  import Seqs
  import opened Catalogue

  // ---------------------------------------------------------------------------
  // Tabs and their facet configuration
  // ---------------------------------------------------------------------------

  datatype Tab = Steel | Aluminium | Coating
  {
    /** The category name a material of this tab carries. */
    function Name(): string
    {
      match this
      case Steel => "钢材"
      case Aluminium => "铝合金"
      case Coating => "涂层材料"
    }
  }

  /** A facet: the material field it filters on, its caption and its buttons. */
  datatype FilterGroup = FilterGroup(id: string, caption: string, options: seq<string>)

  /** The select-all button of every facet. */
  const All: string := "全部"

  /** The buttons of each facet, select-all first. */
  const SteelNames: seq<string> := [All, "高强度合金钢", "优质碳素结构钢", "渗碳齿轮钢", "弹簧钢", "低合金高强度结构钢", "碳素工具钢", "硼钢", "耐热钢"]
  const SteelGrades: seq<string> := [All, "45#", "40Cr", "65Mn", "20CrMnTi", "Q345B", "Q235B", "35CrMo", "GCr15", "T10A", "20MnTiB"]
  const SteelShapes: seq<string> := [All, "棒材", "板材", "管材", "型材", "锻件", "铸件"]
  const SteelConditions: seq<string> := [All, "热轧", "冷轧", "退火", "正火", "淬火+回火"]
  const AluminiumNames: seq<string> := [All, "超硬铝合金", "防锈铝合金", "通用结构铝合金", "船用级防锈铝", "压铸铝合金", "铸造铝合金", "硬铝合金", "耐磨铝合金", "超硬铝"]
  const AluminiumGrades: seq<string> := [All, "7075", "5052", "6061", "5083", "ADC12", "A356", "2A12", "4032", "5A06", "7050"]
  const AluminiumShapes: seq<string> := [All, "棒材", "板材", "管材", "型材", "锻件", "铸件"]
  const AluminiumConditions: seq<string> := [All, "热轧", "冷轧", "退火", "正火", "淬火+回火", "铸造"]
  const CoatingNames: seq<string> := [All, "耐磨陶瓷涂层", "硬质合金涂层", "自熔性合金涂层", "纳米复合涂层", "电镀硬铬", "聚四氟乙烯涂层", "钴基合金涂层", "铝焊丝"]
  const CoatingSystems: seq<string> := [All, "铁基", "镍基", "钴基", "陶瓷", "金属陶瓷", "有机复合", "金属"]
  const CoatingProcesses: seq<string> := [All, "HVOF", "等离子喷涂", "静电喷涂", "电镀", "PVD", "喷涂固化", "电弧喷涂"]
  const CoatingForms: seq<string> := [All, "焊丝", "粉末", "其他"]

  /** `CONFIG[tab].filterGroups`. */
  function Config(tab: Tab): seq<FilterGroup>
  {
    match tab
    case Steel => [
      FilterGroup("name", "材料名称", SteelNames),
      FilterGroup("grade", "标准牌号", SteelGrades),
      FilterGroup("shape", "产品形态", SteelShapes),
      FilterGroup("supplyCondition", "供货状态", SteelConditions)]
    case Aluminium => [
      FilterGroup("name", "材料名称", AluminiumNames),
      FilterGroup("grade", "标准牌号", AluminiumGrades),
      FilterGroup("shape", "产品形态", AluminiumShapes),
      FilterGroup("supplyCondition", "供货状态", AluminiumConditions)]
    case Coating => [
      FilterGroup("name", "材料名称", CoatingNames),
      FilterGroup("materialSystem", "材料体系", CoatingSystems),
      FilterGroup("process", "制备工艺", CoatingProcesses),
      FilterGroup("shape", "材料形态", CoatingForms)]
  }

  /** `group.options.filter(o => o !== '全部')`. */
  function SpecificOptions(g: FilterGroup): seq<string>
  {
    Seqs.Filter(g.options, (o: string) => o != All)
  }

  function GroupIds(gs: seq<FilterGroup>): (ids: seq<string>)
    ensures |ids| == |gs| && forall i :: 0 <= i < |gs| ==> ids[i] == gs[i].id
  {
    seq(|gs|, i requires 0 <= i < |gs| => gs[i].id)
  }

  /** No facet repeated within a tab, and no button repeated within a facet. */
  predicate ConfigOk(gs: seq<FilterGroup>)
  {
    Seqs.Distinct(GroupIds(gs)) && forall i :: 0 <= i < |gs| ==> Seqs.Distinct(gs[i].options)
  }

  /** The configuration of every tab is free of repeats. */
  lemma AllConfigsOk()
    ensures forall tab :: ConfigOk(Config(tab))
  {
    forall tab
      ensures ConfigOk(Config(tab))
    {
      ConfigDistinct(tab);
    }
  }

  lemma ConfigDistinct(tab: Tab)
    ensures ConfigOk(Config(tab))
  {
    match tab
    case Steel => SteelConfigOk();
    case Aluminium => AluminiumConfigOk();
    case Coating => CoatingConfigOk();
  }

  lemma SteelConfigOk()
    ensures ConfigOk(Config(Steel))
  {
    assert Seqs.Distinct(SteelNames);
    assert Seqs.Distinct(SteelGrades);
    assert Seqs.Distinct(SteelShapes);
    assert Seqs.Distinct(SteelConditions);
  }

  lemma AluminiumConfigOk()
    ensures ConfigOk(Config(Aluminium))
  {
    assert Seqs.Distinct(AluminiumNames);
    assert Seqs.Distinct(AluminiumGrades);
    assert Seqs.Distinct(AluminiumShapes);
    assert Seqs.Distinct(AluminiumConditions);
  }

  lemma CoatingConfigOk()
    ensures ConfigOk(Config(Coating))
  {
    assert Seqs.Distinct(CoatingNames);
    assert Seqs.Distinct(CoatingSystems);
    assert Seqs.Distinct(CoatingProcesses);
    assert Seqs.Distinct(CoatingForms);
  }

  /** `CONFIG[activeTab].filterGroups.find(g => g.id === groupId)`. */
  function FindGroup(gs: seq<FilterGroup>, id: string): (r: Option<FilterGroup>)
    ensures r.None? <==> id !in GroupIds(gs)
    ensures r.Some? ==> r.value in gs && r.value.id == id
  {
    if gs == [] then None
    else if gs[0].id == id then Some(gs[0])
    else
      assert GroupIds(gs) == [gs[0].id] + GroupIds(gs[1..]);
      FindGroup(gs[1..], id)
  }

  // ---------------------------------------------------------------------------
  // Facet selections
  // ---------------------------------------------------------------------------

  /** `FilterState`: facet id to the selected options, in insertion order. */
  type Filters = JsObject.Obj<seq<string>>

  /** The state the tab effect and the reset button build: every facet of the tab
      present, with nothing selected. */
  function EmptySelections(gs: seq<FilterGroup>): (f: Filters)
    requires Seqs.Distinct(GroupIds(gs))
    ensures f.keys == GroupIds(gs)
    ensures forall k :: k in f.keys ==> f.vals[k] == []
  {
    if gs == [] then JsObject.Empty()
    else
      var front := gs[..|gs| - 1];
      var ids := GroupIds(gs);
      assert GroupIds(front) == ids[..|gs| - 1];
      assert ids == GroupIds(front) + [gs[|gs| - 1].id];
      assert gs[|gs| - 1].id !in GroupIds(front);
      JsObject.Put(EmptySelections(front), gs[|gs| - 1].id, [])
  }

  /** Every facet of the tab is present, and each selection is a repeat-free choice
      among the facet's specific options. */
  predicate WellFormedFilters(gs: seq<FilterGroup>, f: Filters)
  {
    && f.keys == GroupIds(gs)
    && forall i :: 0 <= i < |gs| ==>
         && gs[i].id in f.vals
         && Seqs.Distinct(f.vals[gs[i].id])
         && forall o :: o in f.vals[gs[i].id] ==> o in SpecificOptions(gs[i])
  }

  /** Empty selections are well formed. */
  lemma EmptySelectionsWellFormed(gs: seq<FilterGroup>)
    requires Seqs.Distinct(GroupIds(gs))
    ensures WellFormedFilters(gs, EmptySelections(gs))
  {
    var f := EmptySelections(gs);
    forall i | 0 <= i < |gs|
      ensures gs[i].id in f.vals && f.vals[gs[i].id] == []
    {
      assert GroupIds(gs)[i] == gs[i].id;
    }
  }

  /** `handleFilterChange`: an unknown facet changes nothing; `全部` clears a facet
      whose every option is selected and otherwise selects all of them; any other
      option is removed when selected and appended when not. */
  function ToggleFilter(gs: seq<FilterGroup>, f: Filters, groupId: string, option: string): Filters
  {
    match FindGroup(gs, groupId)
    case None => f
    case Some(g) =>
      JsObject.Put(f, groupId, Toggled(SpecificOptions(g), JsObject.Get(f, groupId).GetOr([]), option))
  }

  /** The facet's new selection after a click on `option`. */
  function Toggled(groupOptions: seq<string>, current: seq<string>, option: string): seq<string>
  {
    if option == All then
      if |current| == |groupOptions| && |groupOptions| > 0 then [] else groupOptions
    else if option in current then Seqs.Filter(current, (i: string) => i != option)
    else current + [option]
  }

  /** A click on a rendered button keeps a repeat-free choice among the options one. */
  lemma ToggledWellFormed(groupOptions: seq<string>, current: seq<string>, option: string)
    requires Seqs.Distinct(groupOptions) && Seqs.Distinct(current)
    requires forall o :: o in current ==> o in groupOptions
    requires option == All || option in groupOptions
    ensures Seqs.Distinct(Toggled(groupOptions, current, option))
    ensures forall o :: o in Toggled(groupOptions, current, option) ==> o in groupOptions
  {
    if option != All && option in current {
      Seqs.FilterDistinct(current, (x: string) => x != option);
    }
  }

  /** A toggle touches only its own facet, and a facet the tab does not have changes nothing. */
  lemma ToggleFilterFrame(gs: seq<FilterGroup>, f: Filters, groupId: string, option: string)
    ensures forall k :: k != groupId ==> JsObject.Get(ToggleFilter(gs, f, groupId, option), k) == JsObject.Get(f, k)
    ensures groupId !in GroupIds(gs) ==> ToggleFilter(gs, f, groupId, option) == f
  {
  }

  /** Toggling a specific option flips its membership and keeps every other option's. */
  lemma ToggleOption(gs: seq<FilterGroup>, f: Filters, groupId: string, option: string)
    requires groupId in GroupIds(gs) && option != All
    ensures var before := JsObject.Get(f, groupId).GetOr([]);
            var after := JsObject.Get(ToggleFilter(gs, f, groupId, option), groupId);
            && after.Some?
            && (option in after.value <==> option !in before)
            && (forall o :: o != option && o in after.value ==> o in before)
            && (forall o :: o != option && o in before ==> o in after.value)
  {
  }

  /** Toggling an unselected option twice gives back exactly the selections it started from. */
  lemma ToggleOptionTwice(gs: seq<FilterGroup>, f: Filters, groupId: string, option: string)
    requires groupId in GroupIds(gs) && groupId in f.keys && option != All
    requires option !in f.vals[groupId]
    ensures ToggleFilter(gs, ToggleFilter(gs, f, groupId, option), groupId, option) == f
  {
    var current := f.vals[groupId];
    var once := JsObject.Put(f, groupId, current + [option]);
    assert ToggleFilter(gs, f, groupId, option) == once;
    Seqs.FilterAll(current, (i: string) => i != option);
    assert Seqs.Filter(current + [option], (i: string) => i != option) == current by {
      assert (current + [option])[..|current|] == current;
    }
    assert ToggleFilter(gs, once, groupId, option) == JsObject.Put(once, groupId, current);
    JsObject.PutPut(f, groupId, current + [option], current);
  }

  /** On well-formed selections, `全部` clears the facet exactly when every specific
      option is selected (and there is one), and otherwise selects all of them in
      configuration order. */
  lemma ToggleAll(gs: seq<FilterGroup>, f: Filters, i: nat)
    requires ConfigOk(gs) && WellFormedFilters(gs, f) && i < |gs|
    ensures var g := gs[i];
            var after := ToggleFilter(gs, f, g.id, All).vals[g.id];
            var allSelected := |SpecificOptions(g)| > 0 && forall o :: o in SpecificOptions(g) ==> o in f.vals[g.id];
            && (allSelected ==> after == [])
            && (!allSelected ==> after == SpecificOptions(g))
  {
    var g := gs[i];
    FindGroupUnique(gs, i);
    Seqs.FilterDistinct(g.options, (o: string) => o != All);
    Seqs.DistinctSubsetFull(f.vals[g.id], SpecificOptions(g));
  }

  /** With distinct facet ids, looking up the id of a facet finds that facet. */
  lemma {:induction false} FindGroupUnique(gs: seq<FilterGroup>, i: nat)
    requires i < |gs| && Seqs.Distinct(GroupIds(gs))
    ensures FindGroup(gs, gs[i].id) == Some(gs[i])
  {
    if i > 0 {
      assert GroupIds(gs)[0] != GroupIds(gs)[i];
      assert GroupIds(gs[1..]) == GroupIds(gs)[1..];
      FindGroupUnique(gs[1..], i - 1);
    }
  }

  /** A button the page renders (`全部` or one of the facet's options) keeps the
      selections well formed. */
  lemma ToggleFilterWellFormed(gs: seq<FilterGroup>, f: Filters, groupId: string, option: string)
    requires ConfigOk(gs) && WellFormedFilters(gs, f)
    requires forall g :: FindGroup(gs, groupId) == Some(g) ==> option == All || option in SpecificOptions(g)
    ensures WellFormedFilters(gs, ToggleFilter(gs, f, groupId, option))
  {
    var r := ToggleFilter(gs, f, groupId, option);
    match FindGroup(gs, groupId)
    case None =>
    case Some(g) =>
      var j :| 0 <= j < |gs| && gs[j] == g;
      Seqs.FilterDistinct(g.options, (o: string) => o != All);
      ToggledWellFormed(SpecificOptions(g), f.vals[groupId], option);
      assert r.keys == f.keys;
      forall i | 0 <= i < |gs|
        ensures && gs[i].id in r.vals
                && Seqs.Distinct(r.vals[gs[i].id])
                && forall o :: o in r.vals[gs[i].id] ==> o in SpecificOptions(gs[i])
      {
        if gs[i].id == groupId {
          FindGroupUnique(gs, i);
        }
      }
  }

  // ---------------------------------------------------------------------------
  // Search
  // ---------------------------------------------------------------------------

  /** One facet's test on a material: the field is non-empty and contains one of the
      selected options. */
  predicate FacetPass(m: Material, key: string, selected: seq<string>)
  {
    var val := Field(m, key);
    Truthy(val) && exists j | 0 <= j < |selected| :: Contains(val.value, selected[j])
  }

  /** A facet with nothing selected lets every material through. */
  predicate FacetApplies(m: Material, f: Filters, key: string)
  {
    var selected := JsObject.Get(f, key).GetOr([]);
    selected == [] || FacetPass(m, key, selected)
  }

  /** The free-text test: a blank query passes; otherwise the lowered, trimmed query
      occurs in the lowered name, grade or description. */
  predicate QueryPass(m: Material, searchQuery: string)
  {
    Trim(searchQuery) == [] || QueryHit(m, Trim(Lower(searchQuery)))
  }

  /** The lowered query occurs in the lowered name, grade or description. */
  predicate QueryHit(m: Material, query: string)
  {
    || Contains(Lower(m.name), query)
    || (Truthy(m.grade) && Contains(Lower(m.grade.value), query))
    || Contains(Lower(m.description), query)
  }

  /** Everything `handleSearch` asks of a material. */
  predicate Matches(m: Material, tab: Tab, f: Filters, searchQuery: string)
  {
    && m.category == tab.Name()
    && (forall k :: k in f.keys ==> FacetApplies(m, f, k))
    && QueryPass(m, searchQuery)
  }

  function SearchResults(catalogue: seq<Material>, tab: Tab, f: Filters, searchQuery: string): seq<Material>
  {
    Seqs.Filter(catalogue, (m: Material) => Matches(m, tab, f, searchQuery))
  }

  /** The facets among `keys` that a material passes. */
  predicate FacetsUpTo(m: Material, f: Filters, keys: seq<string>)
  {
    forall k :: k in keys ==> FacetApplies(m, f, k)
  }

  /** The search results are the tab's materials that pass every facet, narrowed by
      the query when it is not blank. */
  lemma SearchResultsByStages(catalogue: seq<Material>, tab: Tab, f: Filters, q: string)
    ensures var facets := Seqs.Filter(catalogue, (m: Material) => m.category == tab.Name() && FacetsUpTo(m, f, f.keys));
            && (Trim(q) != [] ==> SearchResults(catalogue, tab, f, q) == Seqs.Filter(facets, (m: Material) => QueryHit(m, Trim(Lower(q)))))
            && (Trim(q) == [] ==> SearchResults(catalogue, tab, f, q) == facets)
  {
    if Trim(q) != [] {
      Seqs.FilterFilter(catalogue,
        (m: Material) => m.category == tab.Name() && FacetsUpTo(m, f, f.keys),
        (m: Material) => QueryHit(m, Trim(Lower(q))),
        (m: Material) => Matches(m, tab, f, q));
    } else {
      Seqs.FilterExt(catalogue,
        (m: Material) => m.category == tab.Name() && FacetsUpTo(m, f, f.keys),
        (m: Material) => Matches(m, tab, f, q));
    }
  }

  /** Narrowing by one more facet of the selection object. */
  lemma FacetsUpToSnoc(m: Material, f: Filters, keys: seq<string>, key: string)
    requires key in f.keys
    ensures FacetsUpTo(m, f, keys + [key])
            == (FacetsUpTo(m, f, keys) && (f.vals[key] == [] || FacetPass(m, key, f.vals[key])))
  {
    assert forall k :: k in keys + [key] <==> k in keys || k == key;
    assert FacetApplies(m, f, key) == (f.vals[key] == [] || FacetPass(m, key, f.vals[key]));
  }

  /** The results are the catalogue's materials of the tab that pass every facet with
      a selection (OR within a facet, AND across facets) and the query; nothing else
      is left out (their order is the catalogue's, by `Seqs.FilterIsSubsequence`). */
  lemma SearchResultsSpec(catalogue: seq<Material>, tab: Tab, f: Filters, searchQuery: string)
    ensures var r := SearchResults(catalogue, tab, f, searchQuery);
            && (forall m :: m in r ==>
                  && m in catalogue && m.category == tab.Name()
                  && (forall k :: k in f.keys && f.vals[k] != [] ==>
                        Truthy(Field(m, k)) && exists j | 0 <= j < |f.vals[k]| :: Contains(Field(m, k).value, f.vals[k][j]))
                  && QueryPass(m, searchQuery))
            && (forall m :: m in catalogue && Matches(m, tab, f, searchQuery) ==> m in r)
  {
    var r := SearchResults(catalogue, tab, f, searchQuery);
    forall m, k | m in r && k in f.keys && f.vals[k] != []
      ensures Truthy(Field(m, k)) && exists j | 0 <= j < |f.vals[k]| :: Contains(Field(m, k).value, f.vals[k][j])
    {
      assert FacetApplies(m, f, k);
    }
  }

  /** With nothing selected and a blank query, the search lists the whole tab. */
  lemma SearchWithoutCriteria(catalogue: seq<Material>, tab: Tab, f: Filters, searchQuery: string)
    requires forall k :: k in f.keys ==> f.vals[k] == []
    requires Trim(searchQuery) == []
    ensures SearchResults(catalogue, tab, f, searchQuery) == Seqs.Filter(catalogue, (m: Material) => m.category == tab.Name())
  {
    Seqs.FilterExt(catalogue, (m: Material) => Matches(m, tab, f, searchQuery), (m: Material) => m.category == tab.Name());
  }

  // ---------------------------------------------------------------------------
  // Sorting
  // ---------------------------------------------------------------------------

  datatype Direction = Asc | Desc

  datatype SortConfig = SortConfig(key: string, direction: Direction)

  /** `handleSort`: descending only when the same column is currently ascending. */
  function NextSort(current: Option<SortConfig>, key: string): (r: SortConfig)
    ensures r.key == key
    ensures r.direction == Desc <==> current == Some(SortConfig(key, Asc))
  {
    if current.Some? && current.value.key == key && current.value.direction == Asc then SortConfig(key, Desc)
    else SortConfig(key, Asc)
  }

  /** Clicking the same column again flips the direction. */
  lemma NextSortAlternates(current: Option<SortConfig>, key: string)
    ensures NextSort(Some(NextSort(current, key)), key).direction != NextSort(current, key).direction
  {
  }

  /** `(m as any)[key] || ''`. */
  function SortKey(m: Material, key: string): string
  {
    OrElse(Field(m, key), "")
  }

  /** The comparator's "strictly before": -1 from the comparator. */
  predicate Before(a: Material, b: Material, cfg: SortConfig)
  {
    if cfg.direction == Asc then Less(SortKey(a, cfg.key), SortKey(b, cfg.key))
    else Less(SortKey(b, cfg.key), SortKey(a, cfg.key))
  }

  /** No element is strictly before one that precedes it. */
  predicate SortedBy(s: seq<Material>, cfg: SortConfig)
  {
    forall i, j :: 0 <= i < j < |s| ==> !Before(s[j], s[i], cfg)
  }

  lemma NotBeforeTransitive(a: Material, b: Material, c: Material, cfg: SortConfig)
    requires !Before(a, b, cfg) && !Before(b, c, cfg)
    ensures !Before(a, c, cfg)
  {
    var ka, kb, kc := SortKey(a, cfg.key), SortKey(b, cfg.key), SortKey(c, cfg.key);
    LessTotal(ka, kb);
    LessTotal(kb, kc);
    if Before(a, c, cfg) {
      if cfg.direction == Asc {
        if ka == kb { } else { LessTransitive(kb, ka, kc); }
        if kb == kc { LessIrreflexive(kb); } else { LessAsymmetric(kc, kb); }
      } else {
        if ka == kb { } else { LessTransitive(kc, ka, kb); }
        if kb == kc { LessIrreflexive(kb); } else { LessAsymmetric(kb, kc); }
      }
    }
  }

  /** Insert `x` after every element it is not strictly before (keeps ties in arrival order). */
  function Insert(s: seq<Material>, x: Material, cfg: SortConfig): (r: seq<Material>)
    ensures |r| == |s| + 1
    ensures multiset(r) == multiset(s) + multiset{x}
  {
    if s == [] then [x]
    else if Before(x, s[|s| - 1], cfg) then
      assert s == s[..|s| - 1] + [s[|s| - 1]];
      Insert(s[..|s| - 1], x, cfg) + [s[|s| - 1]]
    else s + [x]
  }

  /** A stable sort by the comparator, the result `Array.prototype.sort` produces. */
  function Sort(s: seq<Material>, cfg: SortConfig): (r: seq<Material>)
    ensures |r| == |s|
    ensures multiset(r) == multiset(s)
  {
    if s == [] then []
    else
      assert s == s[..|s| - 1] + [s[|s| - 1]];
      Insert(Sort(s[..|s| - 1], cfg), s[|s| - 1], cfg)
  }

  lemma {:induction false} InsertSorted(s: seq<Material>, x: Material, cfg: SortConfig)
    requires SortedBy(s, cfg)
    ensures SortedBy(Insert(s, x, cfg), cfg)
  {
    if s != [] {
      var front, last := s[..|s| - 1], s[|s| - 1];
      if Before(x, last, cfg) {
        InsertSorted(front, x, cfg);
        var ins := Insert(front, x, cfg);
        assert !Before(last, x, cfg) by {
          if cfg.direction == Asc {
            LessAsymmetric(SortKey(x, cfg.key), SortKey(last, cfg.key));
          } else {
            LessAsymmetric(SortKey(last, cfg.key), SortKey(x, cfg.key));
          }
        }
        forall y | y in ins
          ensures !Before(last, y, cfg)
        {
          assert y in multiset(ins);
          if y != x {
            assert y in multiset(front);
            var i :| 0 <= i < |front| && front[i] == y;
            assert s[i] == y;
          }
        }
      } else {
        forall i | 0 <= i < |s|
          ensures !Before(x, s[i], cfg)
        {
          if i < |s| - 1 {
            NotBeforeTransitive(x, last, s[i], cfg);
          }
        }
      }
    }
  }

  /** Sorting yields a permutation of the results in comparator order. */
  lemma {:induction false} SortSpec(s: seq<Material>, cfg: SortConfig)
    ensures SortedBy(Sort(s, cfg), cfg)
    ensures multiset(Sort(s, cfg)) == multiset(s)
  {
    if s != [] {
      SortSpec(s[..|s| - 1], cfg);
      InsertSorted(Sort(s[..|s| - 1], cfg), s[|s| - 1], cfg);
    }
  }

  /** `sortedResults`: the results as they are, or sorted by the chosen column. */
  function SortedResults(results: seq<Material>, sortConfig: Option<SortConfig>): seq<Material>
  {
    if sortConfig.None? then results else Sort(results, sortConfig.value)
  }

  /** In ascending order the column values never decrease; in descending order they
      never increase; the list is always a permutation of the results. */
  lemma SortedResultsSpec(results: seq<Material>, sortConfig: Option<SortConfig>)
    ensures multiset(SortedResults(results, sortConfig)) == multiset(results)
    ensures |SortedResults(results, sortConfig)| == |results|
    ensures sortConfig.Some? ==>
              var r := SortedResults(results, sortConfig);
              var key := sortConfig.value.key;
              forall i, j :: 0 <= i < j < |r| ==>
                if sortConfig.value.direction == Asc then !Less(SortKey(r[j], key), SortKey(r[i], key))
                else !Less(SortKey(r[i], key), SortKey(r[j], key))
  {
    if sortConfig.Some? {
      SortSpec(results, sortConfig.value);
    }
  }

  // ---------------------------------------------------------------------------
  // Paging
  // ---------------------------------------------------------------------------

  const ItemsPerPage: nat := 12

  /** `Math.ceil(n / itemsPerPage)`. */
  function TotalPages(n: nat): nat
  {
    (n + ItemsPerPage - 1) / ItemsPerPage
  }

  lemma TotalPagesSpec(n: nat)
    ensures TotalPages(n) * ItemsPerPage >= n
    ensures n > 0 ==> (TotalPages(n) - 1) * ItemsPerPage < n
    ensures TotalPages(n) == 0 <==> n == 0
  {
  }

  /** `s.slice(start, end)` for non-negative bounds: both are clamped to the length. */
  function Slice<T>(s: seq<T>, start: nat, end: nat): seq<T>
  {
    var a := if start < |s| then start else |s|;
    var b := if end < |s| then end else |s|;
    if b <= a then [] else s[a..b]
  }

  /** The items shown on page `page` (counting from 1). */
  function PageItems<T>(s: seq<T>, page: nat): seq<T>
    requires page >= 1
  {
    Slice(s, (page - 1) * ItemsPerPage, page * ItemsPerPage)
  }

  /** Page `p` shows items `(p-1)·12` up to `min(p·12, n)`, is non-empty exactly for the
      pages `1..TotalPages(n)`, and is empty beyond them. */
  lemma PageItemsSpec<T>(s: seq<T>, page: nat)
    requires page >= 1
    ensures PageItems(s, page) != [] <==> page <= TotalPages(|s|)
    ensures page <= TotalPages(|s|) ==>
              && |PageItems(s, page)| == (if page * ItemsPerPage <= |s| then ItemsPerPage else |s| - (page - 1) * ItemsPerPage)
              && forall k :: 0 <= k < |PageItems(s, page)| ==> PageItems(s, page)[k] == s[(page - 1) * ItemsPerPage + k]
  {
    TotalPagesSpec(|s|);
  }

  /** The first `k` pages, one after the other. */
  function Pages<T>(s: seq<T>, k: nat): seq<T>
  {
    if k == 0 then [] else Pages(s, k - 1) + PageItems(s, k)
  }

  lemma {:induction false} PagesPrefix<T>(s: seq<T>, k: nat)
    ensures Pages(s, k) == s[..if k * ItemsPerPage <= |s| then k * ItemsPerPage else |s|]
  {
    if k > 0 {
      PagesPrefix(s, k - 1);
      var lo := if (k - 1) * ItemsPerPage <= |s| then (k - 1) * ItemsPerPage else |s|;
      var hi := if k * ItemsPerPage <= |s| then k * ItemsPerPage else |s|;
      assert s[..hi] == s[..lo] + s[lo..hi];
    }
  }

  /** Reading every page in turn gives back the whole list. */
  lemma AllPagesGiveTheList<T>(s: seq<T>)
    ensures Pages(s, TotalPages(|s|)) == s
  {
    TotalPagesSpec(|s|);
    PagesPrefix(s, TotalPages(|s|));
  }

  // ---------------------------------------------------------------------------
  // The comparison basket
  // ---------------------------------------------------------------------------

  const MaxComparison: nat := 6

  predicate HasId(list: seq<Material>, id: string)
  {
    exists i | 0 <= i < |list| :: list[i].id == id
  }

  predicate DistinctIds(list: seq<Material>)
  {
    forall i, j :: 0 <= i < j < |list| ==> list[i].id != list[j].id
  }

  /** `toggleComparison`: remove a material already chosen (by id); otherwise add it
      at the end, unless six are already chosen. */
  function ToggleComparison(list: seq<Material>, m: Material): seq<Material>
  {
    if HasId(list, m.id) then Seqs.Filter(list, (x: Material) => x.id != m.id)
    else if |list| >= MaxComparison then list
    else list + [m]
  }

  /** The basket never exceeds six and never holds an id twice. A material not yet
      chosen is appended at the end when there is room, and a full basket comes back
      unchanged; a chosen one is removed, the rest keeping their order. Every other
      material is in the basket afterwards exactly when it was before. */
  lemma ToggleComparisonSpec(list: seq<Material>, m: Material)
    requires |list| <= MaxComparison && DistinctIds(list)
    ensures var r := ToggleComparison(list, m);
            && |r| <= MaxComparison
            && DistinctIds(r)
            && (HasId(r, m.id) <==> !HasId(list, m.id) && |list| < MaxComparison)
            && (forall x: Material :: x.id != m.id ==> (x in r <==> x in list))
            && (!HasId(list, m.id) && |list| < MaxComparison ==> r == list + [m])
            && (!HasId(list, m.id) && |list| >= MaxComparison ==> r == list)
            && (HasId(list, m.id) ==>
                  exists i :: 0 <= i < |list| && list[i].id == m.id && r == list[..i] + list[i + 1..])
  {
    var r := ToggleComparison(list, m);
    if HasId(list, m.id) {
      RemoveById(list, m.id);
    } else if |list| < MaxComparison {
      assert r[|list|] == m;
    }
  }

  /** Removing a chosen id drops exactly the one material with it; the rest keep their
      order and their distinct ids. */
  lemma {:induction false} RemoveById(list: seq<Material>, id: string)
    requires DistinctIds(list) && HasId(list, id)
    ensures var r := Seqs.Filter(list, (x: Material) => x.id != id);
            && DistinctIds(r)
            && exists i :: 0 <= i < |list| && list[i].id == id && r == list[..i] + list[i + 1..]
  {
    var i :| 0 <= i < |list| && list[i].id == id;
    RemoveAt(list, i);
    DistinctIdsWithout(list, i);
  }

  /** With distinct ids, filtering out the id of entry `i` removes that entry alone. */
  lemma {:induction false} RemoveAt(list: seq<Material>, i: nat)
    requires DistinctIds(list) && i < |list|
    ensures Seqs.Filter(list, (x: Material) => x.id != list[i].id) == list[..i] + list[i + 1..]
  {
    var id := list[i].id;
    var p := (x: Material) => x.id != id;
    var before, after := list[..i], list[i + 1..];
    forall x | x in before
      ensures p(x)
    {
      var j :| 0 <= j < i && before[j] == x;
      assert list[j] == x;
    }
    forall x | x in after
      ensures p(x)
    {
      var j :| 0 <= j < |after| && after[j] == x;
      assert list[i + 1 + j] == x;
    }
    assert list == before + [list[i]] + after;
    Seqs.FilterDropsOne(before, list[i], after, p);
  }

  /** Leaving out one entry keeps the ids distinct. */
  lemma {:induction false} DistinctIdsWithout(list: seq<Material>, i: nat)
    requires DistinctIds(list) && i < |list|
    ensures DistinctIds(list[..i] + list[i + 1..])
  {
    var r := list[..i] + list[i + 1..];
    forall j, k | 0 <= j < k < |r|
      ensures r[j].id != r[k].id
    {
      var j', k' := if j < i then j else j + 1, if k < i then k else k + 1;
      assert r[j] == list[j'] && r[k] == list[k'];
    }
  }

  // ---------------------------------------------------------------------------
  // The page state
  // ---------------------------------------------------------------------------

  class MaterialsPage {
    const catalogue: seq<Material>
    /** `CONFIG`: the facets of each tab, fixed when the page is built (the page is
        built over `Config`); every method reads it and none changes it. */
    const config: Tab -> seq<FilterGroup>
    var activeTab: Tab
    var filters: Filters
    var searchQuery: string
    var results: seq<Material>
    var hasSearched: bool
    var comparisonList: seq<Material>
    var sortConfig: Option<SortConfig>
    var currentPage: nat

    predicate Valid()
      reads this
    {
      && currentPage >= 1
      && (forall t :: ConfigOk(config(t)))
      && WellFormedFilters(config(activeTab), filters)
      && |comparisonList| <= MaxComparison
      && DistinctIds(comparisonList)
    }

    /** The rows on screen: the current page of the sorted results. */
    function DisplayedItems(): seq<Material>
      reads this
      requires currentPage >= 1
    {
      PageItems(SortedResults(results, sortConfig), currentPage)
    }

    /** The page as first shown, after the tab effect has run for the steel tab;
        the page is built over `CONFIG` (`Config`), which `AllConfigsOk` shows
        acceptable. */
    constructor(catalogue: seq<Material>, config: Tab -> seq<FilterGroup>)
      requires forall t :: ConfigOk(config(t))
      ensures Valid()
      ensures this.catalogue == catalogue && this.config == config && activeTab == Steel
      ensures filters == EmptySelections(config(Steel))
      ensures searchQuery == "" && results == [] && !hasSearched
      ensures comparisonList == [] && sortConfig == None && currentPage == 1
    {
      this.catalogue := catalogue;
      this.config := config;
      activeTab := Steel;
      searchQuery := "";
      results := [];
      hasSearched := false;
      comparisonList := [];
      sortConfig := None;
      currentPage := 1;
      new;
      filters := ResetSelections(config(Steel));
      EmptySelectionsWellFormed(config(Steel));
    }

    /** The tab effect's loop: every facet of the tab gets an empty selection. */
    static method ResetSelections(gs: seq<FilterGroup>) returns (f: Filters)
      requires ConfigOk(gs)
      ensures f == EmptySelections(gs)
    {
      f := JsObject.Empty();
      for i := 0 to |gs|
        invariant Seqs.Distinct(GroupIds(gs[..i]))
        invariant f == EmptySelections(gs[..i])
      {
        Seqs.TakeSnoc(gs, i);
        assert GroupIds(gs[..i + 1]) == GroupIds(gs)[..i + 1];
        f := JsObject.Put(f, gs[i].id, []);
      }
      assert gs[..|gs|] == gs;
    }

    /** Choosing a tab: when it differs from the active one, the tab effect resets
        the selections, the sort and the page; the results stay. */
    method SwitchTab(tab: Tab)
      requires Valid()
      modifies this
      ensures Valid()
      ensures activeTab == tab
      ensures tab != old(activeTab) ==> filters == EmptySelections(config(tab)) && sortConfig == None && currentPage == 1
      ensures tab == old(activeTab) ==> filters == old(filters) && sortConfig == old(sortConfig) && currentPage == old(currentPage)
      ensures searchQuery == old(searchQuery) && results == old(results) && hasSearched == old(hasSearched)
      ensures comparisonList == old(comparisonList)
    {
      if tab != activeTab {
        var gs := config(tab);
        var f := ResetSelections(gs);
        EmptySelectionsWellFormed(gs);
        activeTab, sortConfig, currentPage := tab, None, 1;
        filters := f;
        assert config(activeTab) == gs;
      }
    }

    /** A click on a facet button. */
    method HandleFilterChange(groupId: string, option: string)
      requires Valid()
      requires forall g :: FindGroup(config(activeTab), groupId) == Some(g) ==> option == All || option in SpecificOptions(g)
      modifies this
      ensures Valid()
      ensures filters == ToggleFilter(config(activeTab), old(filters), groupId, option)
      ensures activeTab == old(activeTab) && searchQuery == old(searchQuery) && results == old(results)
      ensures hasSearched == old(hasSearched) && comparisonList == old(comparisonList)
      ensures sortConfig == old(sortConfig) && currentPage == old(currentPage)
    {
      ToggleFilterWellFormed(config(activeTab), filters, groupId, option);
      filters := ToggleFilter(config(activeTab), filters, groupId, option);
    }

    /** Typing in the search box. */
    method SetSearchQuery(query: string)
      requires Valid()
      modifies this
      ensures Valid()
      ensures searchQuery == query
      ensures activeTab == old(activeTab) && filters == old(filters) && results == old(results)
      ensures hasSearched == old(hasSearched) && comparisonList == old(comparisonList)
      ensures sortConfig == old(sortConfig) && currentPage == old(currentPage)
    {
      searchQuery := query;
    }

    /** The first part of `handleSearch`: the tab's materials, narrowed by each facet
        with a selection, in the order of the selection object's keys. */
    static method NarrowByFacets(catalogue: seq<Material>, tabName: string, f: Filters)
      returns (filtered: seq<Material>)
      ensures filtered == Seqs.Filter(catalogue, (m: Material) => m.category == tabName && FacetsUpTo(m, f, f.keys))
    {
      filtered := Seqs.Filter(catalogue, (m: Material) => m.category == tabName);
      var keys := f.keys;
      Seqs.FilterExt(catalogue, (m: Material) => m.category == tabName && FacetsUpTo(m, f, keys[..0]),
                     (m: Material) => m.category == tabName);
      for i := 0 to |keys|
        invariant filtered == Seqs.Filter(catalogue, (m: Material) => m.category == tabName && FacetsUpTo(m, f, keys[..i]))
      {
        var key := keys[i];
        var selectedOptions := f.vals[key];
        Seqs.TakeSnoc(keys, i);
        forall m: Material {
          FacetsUpToSnoc(m, f, keys[..i], key);
        }
        if |selectedOptions| > 0 {
          Seqs.FilterFilter(catalogue,
            (m: Material) => m.category == tabName && FacetsUpTo(m, f, keys[..i]),
            (m: Material) => FacetPass(m, key, selectedOptions),
            (m: Material) => m.category == tabName && FacetsUpTo(m, f, keys[..i + 1]));
          filtered := Seqs.Filter(filtered, (m: Material) => FacetPass(m, key, selectedOptions));
        } else {
          Seqs.FilterExt(catalogue,
            (m: Material) => m.category == tabName && FacetsUpTo(m, f, keys[..i]),
            (m: Material) => m.category == tabName && FacetsUpTo(m, f, keys[..i + 1]));
        }
      }
      assert keys[..|keys|] == keys;
    }

    /** The second part of `handleSearch`: a non-blank query keeps the materials whose
        name, grade or description holds it. */
    static method NarrowByQuery(catalogue: seq<Material>, tab: Tab, f: Filters, q: string, filtered: seq<Material>)
      returns (r: seq<Material>)
      requires filtered == Seqs.Filter(catalogue, (m: Material) => m.category == tab.Name() && FacetsUpTo(m, f, f.keys))
      ensures r == SearchResults(catalogue, tab, f, q)
    {
      SearchResultsByStages(catalogue, tab, f, q);
      if Trim(q) != [] {
        var query := Trim(Lower(q));
        r := Seqs.Filter(filtered, (m: Material) => QueryHit(m, query));
      } else {
        r := filtered;
      }
    }

    /** `handleSearch`: the tab's materials, narrowed facet by facet in the order of
        the selection object's keys, then by the query; back to page 1. */
    method HandleSearch()
      requires Valid()
      modifies this
      ensures Valid()
      ensures results == SearchResults(catalogue, activeTab, filters, searchQuery)
      ensures hasSearched && currentPage == 1
      ensures activeTab == old(activeTab) && filters == old(filters) && searchQuery == old(searchQuery)
      ensures comparisonList == old(comparisonList) && sortConfig == old(sortConfig)
    {
      var filtered := NarrowByFacets(catalogue, activeTab.Name(), filters);
      filtered := NarrowByQuery(catalogue, activeTab, filters, searchQuery, filtered);
      results := filtered;
      hasSearched := true;
      currentPage := 1;
    }

    /** `handleReset`: empty selections, blank query, no results; the page number is
        left as it was. */
    method HandleReset()
      requires Valid()
      modifies this
      ensures Valid()
      ensures filters == EmptySelections(config(activeTab))
      ensures searchQuery == "" && results == [] && !hasSearched
      ensures activeTab == old(activeTab) && comparisonList == old(comparisonList)
      ensures sortConfig == old(sortConfig) && currentPage == old(currentPage)
    {
      var gs := config(activeTab);
      var f := ResetSelections(gs);
      EmptySelectionsWellFormed(gs);
      searchQuery, results, hasSearched := "", [], false;
      filters := f;
      assert config(activeTab) == gs;
    }

    /** A click on a column header. */
    method HandleSort(key: string)
      requires Valid()
      modifies this
      ensures Valid()
      ensures sortConfig == Some(NextSort(old(sortConfig), key))
      ensures activeTab == old(activeTab) && filters == old(filters) && searchQuery == old(searchQuery)
      ensures results == old(results) && hasSearched == old(hasSearched)
      ensures comparisonList == old(comparisonList) && currentPage == old(currentPage)
    {
      sortConfig := Some(NextSort(sortConfig, key));
    }

    /** The previous-page button: `Math.max(1, p - 1)`. */
    method PrevPage()
      requires Valid()
      modifies this
      ensures Valid()
      ensures currentPage == if old(currentPage) > 1 then old(currentPage) - 1 else 1
      ensures activeTab == old(activeTab) && filters == old(filters) && searchQuery == old(searchQuery)
      ensures results == old(results) && hasSearched == old(hasSearched)
      ensures comparisonList == old(comparisonList) && sortConfig == old(sortConfig)
    {
      currentPage := if currentPage - 1 > 1 then currentPage - 1 else 1;
    }

    /** The next-page button, shown only while the page has rows: `Math.min(totalPages, p + 1)`,
        which stays within the pages that exist. */
    method NextPage()
      requires Valid() && DisplayedItems() != []
      modifies this
      ensures Valid()
      ensures currentPage == if old(currentPage) < TotalPages(|results|) then old(currentPage) + 1 else TotalPages(|results|)
      ensures 1 <= currentPage <= TotalPages(|results|)
      ensures activeTab == old(activeTab) && filters == old(filters) && searchQuery == old(searchQuery)
      ensures results == old(results) && hasSearched == old(hasSearched)
      ensures comparisonList == old(comparisonList) && sortConfig == old(sortConfig)
    {
      SortedResultsSpec(results, sortConfig);
      PageItemsSpec(SortedResults(results, sortConfig), currentPage);
      var totalPages := TotalPages(|results|);
      currentPage := if totalPages < currentPage + 1 then totalPages else currentPage + 1;
    }

    /** The compare checkbox of a row; `full` is the alert shown when a seventh
        material is refused. */
    method HandleToggleComparison(m: Material) returns (full: bool)
      requires Valid()
      modifies this
      ensures Valid()
      ensures comparisonList == ToggleComparison(old(comparisonList), m)
      ensures full <==> !HasId(old(comparisonList), m.id) && |old(comparisonList)| >= MaxComparison
      ensures activeTab == old(activeTab) && filters == old(filters) && searchQuery == old(searchQuery)
      ensures results == old(results) && hasSearched == old(hasSearched)
      ensures sortConfig == old(sortConfig) && currentPage == old(currentPage)
    {
      ToggleComparisonSpec(comparisonList, m);
      full := !HasId(comparisonList, m.id) && |comparisonList| >= MaxComparison;
      comparisonList := ToggleComparison(comparisonList, m);
    }

    /** The clear button of the comparison bar. */
    method ClearComparison()
      requires Valid()
      modifies this
      ensures Valid()
      ensures comparisonList == []
      ensures activeTab == old(activeTab) && filters == old(filters) && searchQuery == old(searchQuery)
      ensures results == old(results) && hasSearched == old(hasSearched)
      ensures sortConfig == old(sortConfig) && currentPage == old(currentPage)
    {
      comparisonList := [];
    }
  }
}
