/**
 * The ADD field descriptor and the two collaborators of the `helper` module, whose
 * text is not part of this model: the type-name table `spark_ddl_types` and the
 * comment-literal formatter `get_property_description`. Both are parameters.
 */
module Schema {
  import opened Wrappers

  /** The element named by an array's `nestedFields` object: `{name, type, doc}`, each key optional. */
  datatype NestedField = NestedField(name: Option<string>, kind: Option<string>, doc: Option<string>)

  /** `nf.get("name", "id")`: the name `_collect_array_fields` files the element under. */
  function FieldName(nf: NestedField): string
  {
    nf.name.GetOr("id")
  }

  /**
   * One ADD column entry. `kind` is the `value` key (a primitive type name,
   * "object" or "array"); a `nestedFields` that is missing, empty or the string
   * "None" is `None` here, as the source treats all three alike.
   */
  datatype Descriptor = Descriptor(
    path: string,
    kind: string,
    arrType: Option<string>,
    nestedFields: Option<NestedField>,
    doc: Option<string>,
    moveafter: Option<string>)

  /** `spark_ddl_types` and `get_property_description`, as given to the generator. */
  datatype Helper = Helper(ddlTypes: map<string, string>, describe: string -> string)

  /** `spark_ddl_types.get(t, t)`: a known name is mapped, an unknown one passes through. */
  function TypeName(h: Helper, t: string): string
  {
    if t in h.ddlTypes then h.ddlTypes[t] else t
  }

  /** `spark_ddl_types.get(t, default)` */
  function TypeNameOr(h: Helper, t: string, default: string): string
  {
    if t in h.ddlTypes then h.ddlTypes[t] else default
  }

  /** `item.get("doc", "")` */
  function DocOf(d: Descriptor): string
  {
    d.doc.GetOr("")
  }
}
