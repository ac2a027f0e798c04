/** Per-field configuration read from a type's mapping (utils/mapping.go):
    `{"properties": {<field>: {"type": .., "analyzer": ..}}}`. */
module Mapping {

  import opened Json

  datatype FieldMapping = FieldMapping(typeName: string, analyzer: string)

  /** The type assertions of GetFieldMapping succeed: `properties`, when
      present, is an object, and so is the entry for `field` when present. */
  predicate ShapedFor(mapping: Members, field: string)
  {
    match Lookup(mapping, "properties")
    case None => true
    case Some(properties) =>
      properties.JObject? &&
      match Lookup(properties.members, field)
      case None => true
      case Some(config) => config.JObject?
  }

  /** The mapping of `field`, or None when the mapping has no `properties`
      or `properties` has no entry for the field.  A missing or non-string
      `type` or `analyzer` reads as "". */
  function GetFieldMapping(mapping: Members, field: string): (r: Option<FieldMapping>)
    requires ShapedFor(mapping, field)
  {
    match Lookup(mapping, "properties")
    case None => None
    case Some(properties) =>
      match Lookup(properties.members, field)
      case None => None
      case Some(config) =>
        Some(FieldMapping(StringOr(Lookup(config.members, "type")), StringOr(Lookup(config.members, "analyzer"))))
  }

  /** Without `properties` no field has a mapping. */
  lemma NoPropertiesNoMapping(mapping: Members, field: string)
    requires forall k :: 0 <= k < |mapping| ==> mapping[k].0 != "properties"
    ensures ShapedFor(mapping, field)
    ensures GetFieldMapping(mapping, field) == None
  {
  }

  /** A field that `properties` does not list has no mapping. */
  lemma MissingFieldNoMapping(mapping: Members, properties: Members, field: string)
    requires Lookup(mapping, "properties") == Some(JObject(properties))
    requires forall k :: 0 <= k < |properties| ==> properties[k].0 != field
    ensures ShapedFor(mapping, field)
    ensures GetFieldMapping(mapping, field) == None
  {
  }

  /** A listed field has a mapping, whatever its `type` and `analyzer` hold. */
  lemma ListedFieldHasMapping(mapping: Members, properties: Members, field: string, config: Members)
    requires Lookup(mapping, "properties") == Some(JObject(properties))
    requires Lookup(properties, field) == Some(JObject(config))
    ensures ShapedFor(mapping, field)
    ensures GetFieldMapping(mapping, field).Some?
    ensures GetFieldMapping(mapping, field).value.typeName == StringOr(Lookup(config, "type"))
    ensures GetFieldMapping(mapping, field).value.analyzer == StringOr(Lookup(config, "analyzer"))
    ensures (forall k :: 0 <= k < |config| ==> config[k].0 != "analyzer") ==>
              GetFieldMapping(mapping, field).value.analyzer == ""
  {
  }

  /** The mapping document that declares `fields`, in the form Elasticsearch
      clients send it. */
  function MappingOf(fields: seq<(string, FieldMapping)>): Members
  {
    [("properties", JObject(PropertiesOf(fields)))]
  }

  function PropertiesOf(fields: seq<(string, FieldMapping)>): (ps: Members)
    ensures |ps| == |fields|
    ensures forall k :: 0 <= k < |fields| ==> ps[k].0 == fields[k].0
  {
    if fields == [] then []
    else
      var (name, fm) := fields[0];
      [(name, JObject([("type", JString(fm.typeName)), ("analyzer", JString(fm.analyzer))]))] + PropertiesOf(fields[1..])
  }

  /** Field names occur once. */
  predicate DistinctNames(fields: seq<(string, FieldMapping)>)
  {
    forall a, b :: 0 <= a < b < |fields| ==> fields[a].0 != fields[b].0
  }

  lemma {:induction false} LookupProperties(fields: seq<(string, FieldMapping)>, k: nat)
    requires DistinctNames(fields)
    requires k < |fields|
    ensures Lookup(PropertiesOf(fields), fields[k].0) ==
              Some(JObject([("type", JString(fields[k].1.typeName)), ("analyzer", JString(fields[k].1.analyzer))]))
  {
    if k > 0 {
      assert fields[0].0 != fields[k].0;
      assert DistinctNames(fields[1..]) by {
        forall a, b | 0 <= a < b < |fields[1..]| ensures fields[1..][a].0 != fields[1..][b].0 {
          assert fields[1..][a] == fields[a + 1] && fields[1..][b] == fields[b + 1];
        }
      }
      LookupProperties(fields[1..], k - 1);
      assert fields[1..][k - 1] == fields[k];
    }
  }

  /** Reading a declared field back gives its declaration: GetFieldMapping
      inverts MappingOf. */
  lemma GetFieldMappingOfMappingOf(fields: seq<(string, FieldMapping)>, k: nat)
    requires DistinctNames(fields)
    requires k < |fields|
    ensures ShapedFor(MappingOf(fields), fields[k].0)
    ensures GetFieldMapping(MappingOf(fields), fields[k].0) == Some(fields[k].1)
  {
    LookupProperties(fields, k);
    var fm := fields[k].1;
    var config: Members := [("type", JString(fm.typeName)), ("analyzer", JString(fm.analyzer))];
    assert Lookup(config, "type") == Some(JString(fm.typeName));
    assert Lookup(config, "analyzer") == Some(JString(fm.analyzer));
  }

  /** A field MappingOf does not declare has no mapping. */
  lemma GetFieldMappingOfUndeclared(fields: seq<(string, FieldMapping)>, field: string)
    requires forall k :: 0 <= k < |fields| ==> fields[k].0 != field
    ensures ShapedFor(MappingOf(fields), field)
    ensures GetFieldMapping(MappingOf(fields), field) == None
  {
    var ps := PropertiesOf(fields);
    assert forall k :: 0 <= k < |ps| ==> ps[k].0 != field;
  }
}
