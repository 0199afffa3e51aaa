/** The key-parts library: every part of every piece of equipment in one list, the
    category tabs drawn from it, and the filter by tab. */
module Parts {
  import opened Wrappers
  import Seqs
  import opened Catalogue

  /** The category given to a part that has none. */
  const OtherCategory: string := "其他"
  /** The tab that shows every part. */
  const AllCategories: string := "全部"

  /** An entry of `allParts`: the part's own fields, the equipment it belongs to, the
      catalogue material it is made of when there is one, and its category. */
  datatype FlatPart = FlatPart(part: Part, equipment: Equipment, materialDetail: Option<Material>, category: string)

  /** The entry pushed for part `p` of equipment `e`. */
  function Flat(e: Equipment, p: Part, materials: seq<Material>): FlatPart
  {
    FlatPart(p, e, FindMaterial(materials, p.materialId), OrElse(p.category, OtherCategory))
  }

  /** The entries of one piece of equipment, in part order. */
  function EntriesOf(e: Equipment, materials: seq<Material>): (r: seq<FlatPart>)
    ensures |r| == |e.parts|
    ensures forall j :: 0 <= j < |r| ==> r[j] == Flat(e, e.parts[j], materials)
  {
    seq(|e.parts|, j requires 0 <= j < |e.parts| => Flat(e, e.parts[j], materials))
  }

  /** The flattened list: equipment by equipment, each one's parts in order. */
  function Flatten(es: seq<Equipment>, materials: seq<Material>): seq<FlatPart>
  {
    if es == [] then [] else Flatten(es[..|es| - 1], materials) + EntriesOf(es[|es| - 1], materials)
  }

  /** The number of parts over all the equipment. */
  function PartCount(es: seq<Equipment>): nat
  {
    if es == [] then 0 else PartCount(es[..|es| - 1]) + |es[|es| - 1].parts|
  }

  /** `allParts`: the nested `forEach` loops push one entry per part. */
  method AllParts(es: seq<Equipment>, materials: seq<Material>) returns (partsList: seq<FlatPart>)
    ensures partsList == Flatten(es, materials)
  {
    partsList := [];
    var i := 0;
    while i < |es|
      invariant 0 <= i <= |es|
      invariant partsList == Flatten(es[..i], materials)
    {
      var eq := es[i];
      var j := 0;
      while j < |eq.parts|
        invariant 0 <= j <= |eq.parts|
        invariant partsList == Flatten(es[..i], materials) + EntriesOf(eq, materials)[..j]
      {
        var part := eq.parts[j];
        var material := FindMaterial(materials, part.materialId);
        partsList := partsList + [FlatPart(part, eq, material, OrElse(part.category, OtherCategory))];
        assert EntriesOf(eq, materials)[..j + 1] == EntriesOf(eq, materials)[..j] + [Flat(eq, part, materials)];
        j := j + 1;
      }
      Seqs.TakeSnoc(es, i);
      assert EntriesOf(eq, materials)[..j] == EntriesOf(eq, materials);
      i := i + 1;
    }
    assert es[..i] == es;
  }

  /** Flattening a concatenation concatenates the flattenings, so the entries of an
      earlier piece of equipment come before those of a later one. */
  lemma {:induction false} FlattenAppend(a: seq<Equipment>, b: seq<Equipment>, materials: seq<Material>)
    ensures Flatten(a + b, materials) == Flatten(a, materials) + Flatten(b, materials)
  {
    if b == [] {
      assert a + b == a;
    } else {
      var b', last := b[..|b| - 1], b[|b| - 1];
      FlattenAppend(a, b', materials);
      Seqs.AppendFront(a, b);
      Seqs.AppendAssoc(Flatten(a, materials), Flatten(b', materials), EntriesOf(last, materials));
    }
  }

  /** The part count of a concatenation is the sum of the counts. */
  lemma {:induction false} PartCountAppend(a: seq<Equipment>, b: seq<Equipment>)
    ensures PartCount(a + b) == PartCount(a) + PartCount(b)
  {
    if b == [] {
      assert a + b == a;
    } else {
      PartCountAppend(a, b[..|b| - 1]);
      Seqs.AppendFront(a, b);
    }
  }

  /** The list has one entry per part of the catalogue, and the entries of piece `i`
      form one block that follows the entries of the pieces before it. */
  lemma {:induction false} FlattenSpec(es: seq<Equipment>, materials: seq<Material>)
    ensures |Flatten(es, materials)| == PartCount(es)
    ensures forall i :: 0 <= i < |es| ==>
              Flatten(es, materials) == Flatten(es[..i], materials) + EntriesOf(es[i], materials) + Flatten(es[i + 1..], materials)
  {
    if es != [] {
      FlattenSpec(es[..|es| - 1], materials);
    }
    forall i | 0 <= i < |es|
      ensures Flatten(es, materials) == Flatten(es[..i], materials) + EntriesOf(es[i], materials) + Flatten(es[i + 1..], materials)
    {
      FlattenAt(es, materials, i);
    }
  }

  /** The entries of piece `i` sit between those of the pieces before and after it. */
  lemma FlattenAt(es: seq<Equipment>, materials: seq<Material>, i: nat)
    requires i < |es|
    ensures Flatten(es, materials) == Flatten(es[..i], materials) + EntriesOf(es[i], materials) + Flatten(es[i + 1..], materials)
  {
    var before, here, after := es[..i], [es[i]], es[i + 1..];
    assert es == before + here + after;
    FlattenAppend(before + here, after, materials);
    FlattenAppend(before, here, materials);
    assert Flatten(here, materials) == EntriesOf(es[i], materials) by {
      assert here[..0] == [];
    }
  }

  /** Every entry stands for a part of a piece of the catalogue, carries the first
      material with the part's material id (or none), and has a non-empty category: its
      own when it has one, `其他` otherwise. */
  lemma {:induction false} FlatEntries(es: seq<Equipment>, materials: seq<Material>)
    ensures forall x :: x in Flatten(es, materials) ==>
              && x.equipment in es && x.part in x.equipment.parts
              && x.materialDetail == FindMaterial(materials, x.part.materialId)
              && x.category != ""
              && x.category == (if Truthy(x.part.category) then x.part.category.value else OtherCategory)
  {
    if es != [] {
      FlatEntries(es[..|es| - 1], materials);
      forall x | x in EntriesOf(es[|es| - 1], materials)
        ensures x.equipment in es && x.part in x.equipment.parts
      {
        var j :| 0 <= j < |es[|es| - 1].parts| && x == EntriesOf(es[|es| - 1], materials)[j];
      }
    }
  }

  /** The category of each entry, in list order (`allParts.map(p => p.category)`). */
  function Categories(parts: seq<FlatPart>): (r: seq<string>)
    ensures |r| == |parts| && forall i :: 0 <= i < |parts| ==> r[i] == parts[i].category
  {
    seq(|parts|, i requires 0 <= i < |parts| => parts[i].category)
  }

  /** `partCategories`: `全部`, then the categories in order of first appearance. */
  function PartCategories(parts: seq<FlatPart>): seq<string>
  {
    [AllCategories] + Seqs.Dedup(Categories(parts))
  }

  /** The tabs open with `全部` and hold every category once, ordered by where it first
      appears; no tab stands for a category no part has. When no part has the category
      `全部` itself, no tab repeats. */
  lemma PartCategoriesSpec(parts: seq<FlatPart>)
    ensures var r := PartCategories(parts);
            && r[0] == AllCategories
            && (forall c :: c in r[1..] <==> exists i :: 0 <= i < |parts| && parts[i].category == c)
            && Seqs.Distinct(r[1..])
            && (forall i, j :: 1 <= i < j < |r| ==> Seqs.FirstIndex(Categories(parts), r[i]) < Seqs.FirstIndex(Categories(parts), r[j]))
            && ((forall i :: 0 <= i < |parts| ==> parts[i].category != AllCategories) ==> Seqs.Distinct(r))
  {
    var cs := Categories(parts);
    var r := PartCategories(parts);
    Seqs.DedupSpec(cs);
    assert r[1..] == Seqs.Dedup(cs);
    forall c | c in r[1..]
      ensures exists i :: 0 <= i < |parts| && parts[i].category == c
    {
      var i :| 0 <= i < |cs| && cs[i] == c;
    }
    forall c | exists i :: 0 <= i < |parts| && parts[i].category == c
      ensures c in r[1..]
    {
      var i :| 0 <= i < |parts| && parts[i].category == c;
      assert cs[i] == c;
    }
    if forall i :: 0 <= i < |parts| ==> parts[i].category != AllCategories {
      assert AllCategories !in cs;
      forall i, j | 0 <= i < j < |r|
        ensures r[i] != r[j]
      {
        if i == 0 {
          assert r[j] in Seqs.Dedup(cs);
        } else {
          assert r[i] == Seqs.Dedup(cs)[i - 1] && r[j] == Seqs.Dedup(cs)[j - 1];
        }
      }
    }
  }

  /** `filteredParts`. */
  function FilteredParts(parts: seq<FlatPart>, filterCategory: string): seq<FlatPart>
  {
    if filterCategory == AllCategories then parts
    else Seqs.Filter(parts, (p: FlatPart) => p.category == filterCategory)
  }

  /** `全部` shows every part; any other tab shows exactly the parts of that category,
      in list order, as many as there are parts with it. */
  lemma FilteredPartsSpec(parts: seq<FlatPart>, filterCategory: string)
    ensures filterCategory == AllCategories ==> FilteredParts(parts, filterCategory) == parts
    ensures filterCategory != AllCategories ==>
              var r := FilteredParts(parts, filterCategory);
              && (forall p :: p in r <==> p in parts && p.category == filterCategory)
              && |r| == Seqs.Count(parts, (p: FlatPart) => p.category == filterCategory)
              && var idx := Seqs.PassingIndices(parts, (p: FlatPart) => p.category == filterCategory);
              && |idx| == |r|
              && (forall k :: 0 <= k < |r| ==> idx[k] < |parts| && r[k] == parts[idx[k]])
              && (forall j, k :: 0 <= j < k < |idx| ==> idx[j] < idx[k])
  {
    Seqs.FilterIsSubsequence(parts, (p: FlatPart) => p.category == filterCategory);
    Seqs.FilterLengthIsCount(parts, (p: FlatPart) => p.category == filterCategory);
  }
}
