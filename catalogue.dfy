/** The records of the read-only catalogue (materials, equipment and their parts,
    experiments) and the `find`-by-id lookups the pages run over them. */
module Catalogue {
  import opened Wrappers
  import JsObject

  /** A property group: property key (`屈服强度`, `Cr`, `密度`) to the measured value
      with its unit, as written in the catalogue (`980 MPa`, `Bal.`, `-`). */
  type Group = JsObject.Obj<string>

  /** A material. `technicalSpecifications` holds the groups the comparison page reads,
      under their Chinese group names; the detail sheet reads the five named groups. */
  datatype Material = Material(
    id: string,
    name: string,
    category: string,
    shape: Option<string>,
    grade: Option<string>,
    standard: Option<string>,
    process: Option<string>,
    supplyCondition: Option<string>,
    materialSystem: Option<string>,
    description: string,
    chemicalComposition: Option<Group>,
    mechanicalProperties: Option<Group>,
    physicalProperties: Option<Group>,
    thermalProperties: Option<Group>,
    characteristicProperties: Option<Group>,
    wearResistance: Option<string>,
    corrosionResistance: Option<string>,
    applicationParts: seq<string>,
    technicalSpecifications: map<string, Group>)

  /** A value JavaScript treats as true in `if (v)` or `v || x`: present and not `''`. */
  predicate Truthy(v: Option<string>)
  {
    v.Some? && v.value != ""
  }

  /** `v || fallback` for an optional string. */
  function OrElse(v: Option<string>, fallback: string): (r: string)
    ensures Truthy(v) ==> r == v.value
    ensures !Truthy(v) ==> r == fallback
  {
    if Truthy(v) then v.value else fallback
  }

  /** `(m as any)[key]`: the string field a filter group or a sort column names. */
  function Field(m: Material, key: string): Option<string>
  {
    match key
    case "id" => Some(m.id)
    case "name" => Some(m.name)
    case "category" => Some(m.category)
    case "description" => Some(m.description)
    case "grade" => m.grade
    case "shape" => m.shape
    case "standard" => m.standard
    case "process" => m.process
    case "supplyCondition" => m.supplyCondition
    case "materialSystem" => m.materialSystem
    case _ => None
  }

  /** A part of a piece of equipment and the material it is made of. */
  datatype Part = Part(id: string, name: string, category: Option<string>, materialId: string, materialName: string)

  /** A piece of equipment; `kind` is its sub-category (the source's `type`). */
  datatype Equipment = Equipment(
    id: string, name: string, category: string, kind: string, model: string,
    description: string, parts: seq<Part>)

  /** An experiment record; `kind` is the test type (the source's `type`). */
  datatype Experiment = Experiment(
    id: string, testCode: string, title: string, kind: string, materialName: string,
    date: string, status: string, standard: string, operator: string)

  /** `materials.find(m => m.id === id)`: the first material with that id. */
  function FindMaterial(ms: seq<Material>, id: string): (r: Option<Material>)
    ensures r.None? <==> forall i :: 0 <= i < |ms| ==> ms[i].id != id
    ensures r.Some? ==> exists i :: 0 <= i < |ms| && ms[i] == r.value && r.value.id == id
                                     && forall j :: 0 <= j < i ==> ms[j].id != id
  {
    if ms == [] then None
    else if ms[0].id == id then Some(ms[0])
    else
      var r := FindMaterial(ms[1..], id);
      assert forall i :: 1 <= i < |ms| ==> ms[i] == ms[1..][i - 1];
      r
  }

  /** `EQUIPMENT.find(e => e.id === id)`, where a missing URL parameter (`null`)
      matches nothing. */
  function FindEquipment(es: seq<Equipment>, id: Option<string>): (r: Option<Equipment>)
    ensures r.None? <==> id.None? || forall i :: 0 <= i < |es| ==> es[i].id != id.value
    ensures r.Some? ==> exists i :: 0 <= i < |es| && es[i] == r.value && Some(r.value.id) == id
                                     && forall j :: 0 <= j < i ==> Some(es[j].id) != id
  {
    if id.None? || es == [] then None
    else if es[0].id == id.value then Some(es[0])
    else
      var r := FindEquipment(es[1..], id);
      assert forall i :: 1 <= i < |es| ==> es[i] == es[1..][i - 1];
      r
  }
}
