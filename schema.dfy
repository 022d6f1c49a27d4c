// What the generator, validator and scaffolder ask of the declarations: per
// domain ("from" for the source specs, "to" for the destination specs), the
// fields of a record type, the element type and dimension count of an array
// type, and the literals of an enumeration type.  A provider answers these
// from two finite tables, one per domain.

module Schema {
  import opened Wrappers
  import Records

  type Fields = Records.Fields

  datatype Domain = From | To

  datatype Side = Side(
    records: map<string, Fields>,
    elements: map<string, string>,
    dimensions: map<string, nat>,
    enums: map<string, seq<string>>)

  datatype Provider = Provider(from: Side, to: Side)

  function SideOf(p: Provider, d: Domain): Side {
    if d == From then p.from else p.to
  }

  /** `get_record_fields(domain, name)`. */
  function RecordFields(p: Provider, d: Domain, name: string): Option<Fields> {
    var s := SideOf(p, d);
    if name in s.records then Some(s.records[name]) else None
  }

  /** `get_array_element_type(domain, name)`. */
  function ArrayElement(p: Provider, d: Domain, name: string): Option<string> {
    var s := SideOf(p, d);
    if name in s.elements then Some(s.elements[name]) else None
  }

  /** `get_array_dimension(domain, name)`. */
  function ArrayDimension(p: Provider, d: Domain, name: string): Option<nat> {
    var s := SideOf(p, d);
    if name in s.dimensions then Some(s.dimensions[name]) else None
  }

  /** `get_enum_literals(domain, name)`. */
  function EnumLiterals(p: Provider, d: Domain, name: string): Option<seq<string>> {
    var s := SideOf(p, d);
    if name in s.enums then Some(s.enums[name]) else None
  }

  /** A record's fields looked up by a type name that may be empty: an empty
      name has none. */
  function FieldsOf(p: Provider, d: Domain, name: string): (r: Option<Fields>)
    ensures name == [] ==> r == None
    ensures name != [] ==> r == RecordFields(p, d, name)
  {
    if name == [] then None else RecordFields(p, d, name)
  }

  /** An array's element type looked up by a type name that may be empty. */
  function ElementOf(p: Provider, d: Domain, name: string): (r: Option<string>)
    ensures name == [] ==> r == None
    ensures name != [] ==> r == ArrayElement(p, d, name)
  {
    if name == [] then None else ArrayElement(p, d, name)
  }

  /** `x or default` on an optional list or dictionary. */
  function OrEmpty<T>(o: Option<seq<T>>): (r: seq<T>)
    ensures o.Some? ==> r == o.value
    ensures o.None? ==> r == []
  {
    if o.Some? then o.value else []
  }

  /** Python truthiness of an optional string or collection. */
  predicate Present<T>(o: Option<seq<T>>) { o.Some? && o.value != [] }

  /** Both types are arrays: the source type's element type in the source
      declarations and the destination type's in the destination ones are
      truthy. */
  predicate BothArrays(p: Provider, src: string, dst: string) {
    Present(ElementOf(p, To, dst)) && Present(ElementOf(p, From, src))
  }
}
