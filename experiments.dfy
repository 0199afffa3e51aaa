/** The experiment archive: the type and text filter, the completed count and the
    status badge style. */
module Experiments {
  import Seqs
  import opened Text
  import opened Catalogue

  /** The type filter's select-all value. */
  const AllTypes: string := "全部"

  /** `filterType === '全部' || exp.type === filterType`. */
  predicate TypePasses(filterType: string, e: Experiment)
  {
    filterType == AllTypes || e.kind == filterType
  }

  /** The lowercased query occurs in the lowercased title, test code or material name. */
  predicate SearchPasses(query: string, e: Experiment)
  {
    var q := Lower(query);
    Contains(Lower(e.title), q) || Contains(Lower(e.testCode), q) || Contains(Lower(e.materialName), q)
  }

  predicate Passes(filterType: string, query: string, e: Experiment)
  {
    TypePasses(filterType, e) && SearchPasses(query, e)
  }

  /** `filteredExperiments`. */
  function FilteredExperiments(es: seq<Experiment>, filterType: string, query: string): seq<Experiment>
  {
    Seqs.Filter(es, (e: Experiment) => Passes(filterType, query, e))
  }

  /** The filtered list holds exactly the experiments of the chosen type (any type for
      `全部`) whose title, test code or material name contains the query, ignoring case,
      in archive order: its `k`-th entry is the archive's entry at the `k`-th of a
      strictly increasing list of positions. */
  lemma FilteredExperimentsSpec(es: seq<Experiment>, filterType: string, query: string)
    ensures var r := FilteredExperiments(es, filterType, query);
            && (forall e :: e in r <==> e in es && (filterType == AllTypes || e.kind == filterType) && SearchPasses(query, e))
            && var idx := Seqs.PassingIndices(es, (e: Experiment) => Passes(filterType, query, e));
            && |idx| == |r|
            && (forall k :: 0 <= k < |r| ==> idx[k] < |es| && r[k] == es[idx[k]])
            && (forall j, k :: 0 <= j < k < |idx| ==> idx[j] < idx[k])
  {
    Seqs.FilterIsSubsequence(es, (e: Experiment) => Passes(filterType, query, e));
  }

  /** An empty query with the select-all type lists the whole archive, and an empty
      query keeps every experiment of the chosen type. */
  lemma EmptyQueryKeepsType(es: seq<Experiment>, filterType: string)
    ensures FilteredExperiments(es, AllTypes, "") == es
    ensures FilteredExperiments(es, filterType, "") == Seqs.Filter(es, (e: Experiment) => TypePasses(filterType, e))
  {
    forall e: Experiment
      ensures SearchPasses("", e)
    {
      ContainsTrivial(Lower(e.title));
    }
    Seqs.FilterAll(es, (e: Experiment) => Passes(AllTypes, "", e));
    Seqs.FilterExt(es, (e: Experiment) => Passes(filterType, "", e), (e: Experiment) => TypePasses(filterType, e));
  }

  predicate IsCompleted(e: Experiment)
  {
    e.status == "Completed"
  }

  /** `EXPERIMENTS.filter(e => e.status === 'Completed').length`. */
  function CompletedCount(es: seq<Experiment>): nat
  {
    |Seqs.Filter(es, IsCompleted)|
  }

  /** The completed count agrees with counting the completed records one by one from
      the front: a completed record adds one, any other adds nothing, and the count
      never exceeds the archive's size. */
  lemma CompletedCountSpec(es: seq<Experiment>, e: Experiment)
    ensures CompletedCount(es) == Seqs.Count(es, IsCompleted) <= |es|
    ensures CompletedCount(es + [e]) == CompletedCount(es) + if IsCompleted(e) then 1 else 0
  {
    Seqs.FilterLengthIsCount(es, IsCompleted);
    Seqs.FilterLengthIsCount(es + [e], IsCompleted);
    Seqs.CountSnoc(es, e, IsCompleted);
  }

  /** The badge styles of `getStatusColor`. */
  const CompletedStyle: string := "text-green-600 bg-green-50 border-green-200"
  const ProcessingStyle: string := "text-blue-600 bg-blue-50 border-blue-200"
  const DefaultStyle: string := "text-slate-500 bg-slate-50 border-slate-200"

  /** `getStatusColor`. */
  function StatusColor(status: string): string
  {
    match status
    case "Completed" => CompletedStyle
    case "Processing" => ProcessingStyle
    case _ => DefaultStyle
  }

  /** The three styles differ, so the badge tells `Completed` and `Processing` apart
      from each other and from every other status, which all share the default. */
  lemma StatusColorSpec(status: string)
    ensures StatusColor(status) == CompletedStyle <==> status == "Completed"
    ensures StatusColor(status) == ProcessingStyle <==> status == "Processing"
    ensures StatusColor(status) == DefaultStyle <==> status != "Completed" && status != "Processing"
  {
    assert CompletedStyle[5] != ProcessingStyle[5] && CompletedStyle[5] != DefaultStyle[5];
    assert ProcessingStyle[5] != DefaultStyle[5];
  }
}
