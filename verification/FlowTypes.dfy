/** The vocabulary the flow decoders share. */
module FlowTypes {
  import opened Common
  import opened Bytes

  const VAR_LENGTH: uint16 := 0xFFFF

  datatype Field = Field(typ: uint16, length: uint16, enterprise: uint32) {
    predicate Variable() {
      length == VAR_LENGTH
    }
  }

  function Width(fields: seq<Field>): nat {
    if fields == [] then 0 else fields[0].length + Width(fields[1..])
  }

  lemma {:induction false} WidthOfLast(fields: seq<Field>, f: Field)
    ensures Width(fields + [f]) == Width(fields) + f.length
  {
    if fields == [] {
      assert [] + [f] == [f] && [f][1..] == [];
    } else {
      assert (fields + [f])[1..] == fields[1..] + [f];
      WidthOfLast(fields[1..], f);
    }
  }

  /** `recordLen` sums the fixed widths; `scopeFields` is non-zero for options. */
  datatype Layout = Layout(fields: seq<Field>, recordLen: nat, hasVarLen: bool, scopeFields: nat) {
    predicate IsOptions() {
      scopeFields > 0
    }

    /** A layout without variable fields spans exactly its fields' widths. */
    predicate WellFormed() {
      !hasVarLen ==> recordLen == Width(fields)
    }
  }

  /** Both parsers build only layouts the record walker can index. */
  type Template = t: Layout | t.WellFormed() witness Layout([], 0, false, 0)

  datatype TemplateKey = TemplateKey(exporter: Addr, sourceId: uint32, id: uint16, version: uint16)

  datatype SamplingKey = SamplingKey(exporter: Addr, sourceId: uint32)
}
