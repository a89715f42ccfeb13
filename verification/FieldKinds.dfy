/** What a payload field is declared to hold (`server/src/matter/clusters.rs`). */
module FieldKinds {
  import opened WireNames

  datatype FieldKind =
    | BytesKind
    | StringKind
    | IntKind
    | FloatKind
    | BoolKind
    | ListKind(item: FieldKind)
    | StructKind(meta: StructMeta)
    | OtherKind

  /** A struct with named fields: wire name to tag, and tag to kind. */
  datatype StructMeta = StructMeta(name: string, fields: seq<Field>, kinds: map<nat, FieldKind>)

  /** The kind of an array's items; where no list was declared, whatever was. */
  function ElementKind(kind: FieldKind): FieldKind
  {
    if kind.ListKind? then kind.item else kind
  }

  function KindOf(meta: StructMeta, tag: nat): FieldKind
  {
    if tag in meta.kinds then meta.kinds[tag] else OtherKind
  }
}
