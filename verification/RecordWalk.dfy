/**
 Walking a data set into records: by multiplication when every field has a
 fixed width, in order when some widths are carried in the records themselves
 (RFC 7011, section 7).
 */
module RecordWalk {
  import opened Common
  import opened Bytes
  import opened FlowTypes

  /** One record: its field values, in template order. */
  type Values = seq<bytes>

  // ------------------------------------------------------------ the walker

  /** The value of one field at `off` and the offset after it. */
  function WalkField(body: bytes, off: nat, f: Field): (r: Option<(bytes, nat)>)
    requires off <= |body|
    ensures r.Some? ==> off <= r.value.1 <= |body|
  {
    if !f.Variable() then
      if off + f.length > |body| then None else Some((body[off..off + f.length], off + f.length))
    else if off >= |body| then None
    else if body[off] < 255 then
      if off + 1 + body[off] > |body| then None
      else Some((body[off + 1..off + 1 + body[off]], off + 1 + body[off]))
    else if off + 3 > |body| then None
    else
      var width := U16(body, off + 1);
      if off + 3 + width > |body| then None else Some((body[off + 3..off + 3 + width], off + 3 + width))
  }

  function WalkFields(body: bytes, off: nat, fields: seq<Field>): (r: Option<(Values, nat)>)
    requires off <= |body|
    ensures r.Some? ==> off <= r.value.1 <= |body|
    decreases |fields|
  {
    if fields == [] then Some(([], off))
    else
      var first := WalkField(body, off, fields[0]);
      if first.None? then None
      else
        var rest := WalkFields(body, first.value.1, fields[1..]);
        if rest.None? then None else Some(([first.value.0] + rest.value.0, rest.value.1))
  }

  function WalkRecords(body: bytes, off: nat, fields: seq<Field>): seq<Values>
    requires off <= |body|
    decreases |body| - off
  {
    if off == |body| then []
    else
      var r := WalkFields(body, off, fields);
      if r.None? || r.value.1 == off then [] else [r.value.0] + WalkRecords(body, r.value.1, fields)
  }

  // --------------------------------------------------------- the fast path

  function SplitFixed(rec: bytes, fields: seq<Field>): Values
    requires |rec| == Width(fields)
    decreases |fields|
  {
    if fields == [] then []
    else [rec[..fields[0].length]] + SplitFixed(rec[fields[0].length..], fields[1..])
  }

  function FixedRecords(body: bytes, fields: seq<Field>): seq<Values>
    requires Width(fields) > 0
    decreases |body|
  {
    var w := Width(fields);
    if |body| < w then [] else [SplitFixed(body[..w], fields)] + FixedRecords(body[w..], fields)
  }

  /** The records a data set holds under a template. */
  function Records(body: bytes, t: Template): seq<Values> {
    if |t.fields| == 0 then []
    else if !t.hasVarLen then if t.recordLen == 0 then [] else FixedRecords(body, t.fields)
    else WalkRecords(body, 0, t.fields)
  }

  // ---------------------------------------------------------- the encoding

  /** A field's value and, where its width travels with it, which length form is used. */
  datatype Cell = Cell(data: bytes, long: bool)

  predicate Fits(c: Cell, f: Field) {
    if !f.Variable() then |c.data| == f.length
    else if c.long then |c.data| < 0x1_0000
    else |c.data| < 255
  }

  /** One cell per field, each of a width its field allows. */
  predicate RecordFits(cells: seq<Cell>, fields: seq<Field>)
    decreases |fields|
  {
    if fields == [] then cells == []
    else cells != [] && Fits(cells[0], fields[0]) && RecordFits(cells[1..], fields[1..])
  }

  ghost function EncodeCell(c: Cell, f: Field): bytes
    requires Fits(c, f)
  {
    if !f.Variable() then c.data
    else if c.long then [255] + PutU16(|c.data|) + c.data
    else [|c.data|] + c.data
  }

  ghost function EncodeRecord(cells: seq<Cell>, fields: seq<Field>): bytes
    requires RecordFits(cells, fields)
    decreases |fields|
  {
    if fields == [] then [] else EncodeCell(cells[0], fields[0]) + EncodeRecord(cells[1..], fields[1..])
  }

  ghost function EncodeRecords(records: seq<seq<Cell>>, fields: seq<Field>): bytes
    requires forall i :: 0 <= i < |records| ==> RecordFits(records[i], fields)
    decreases |records|
  {
    if records == [] then [] else EncodeRecord(records[0], fields) + EncodeRecords(records[1..], fields)
  }

  function Data(cells: seq<Cell>): Values {
    if cells == [] then [] else [cells[0].data] + Data(cells[1..])
  }

  function AllData(records: seq<seq<Cell>>): seq<Values> {
    if records == [] then [] else [Data(records[0])] + AllData(records[1..])
  }

  /** The fewest bytes any record of this layout can occupy. */
  function MinWidth(fields: seq<Field>): nat {
    if fields == [] then 0
    else (if fields[0].Variable() then 1 else fields[0].length) + MinWidth(fields[1..])
  }

  // ------------------------------------------------------------ round trip

  lemma FieldDecodes(body: bytes, off: nat, c: Cell, f: Field)
    requires Fits(c, f) && At(body, off, EncodeCell(c, f))
    ensures WalkField(body, off, f) == Some((c.data, off + |EncodeCell(c, f)|))
  {
    var code := EncodeCell(c, f);
    if f.Variable() {
      assert body[off] == body[off..off + |code|][0] == code[0];
      if c.long {
        AtSplits(body, off, [255] + PutU16(|c.data|), c.data);
        AtSplits(body, off, [255], PutU16(|c.data|));
        WordsAt(body, off + 1, PutU16(|c.data|), 0);
      } else {
        AtSplits(body, off, [|c.data|], c.data);
      }
    }
  }

  lemma FirstFieldThenRest(body: bytes, off: nat, fields: seq<Field>, value: bytes, mid: nat, rest: Values, end: nat)
    requires fields != [] && off <= |body| && mid <= |body|
    requires WalkField(body, off, fields[0]) == Some((value, mid))
    requires WalkFields(body, mid, fields[1..]) == Some((rest, end))
    ensures WalkFields(body, off, fields) == Some(([value] + rest, end))
  {
  }

  lemma {:induction false} RecordDecodes(body: bytes, off: nat, cells: seq<Cell>, fields: seq<Field>, end: nat)
    requires RecordFits(cells, fields) && At(body, off, EncodeRecord(cells, fields))
    requires end == off + |EncodeRecord(cells, fields)|
    ensures WalkFields(body, off, fields) == Some((Data(cells), end))
    decreases |fields|
  {
    if fields != [] {
      var head, tail := EncodeCell(cells[0], fields[0]), EncodeRecord(cells[1..], fields[1..]);
      AtSplits(body, off, head, tail);
      FieldDecodes(body, off, cells[0], fields[0]);
      RecordDecodes(body, off + |head|, cells[1..], fields[1..], end);
      FirstFieldThenRest(body, off, fields, cells[0].data, off + |head|, Data(cells[1..]), end);
    }
  }

  lemma {:induction false} WalkTakesAtLeast(body: bytes, off: nat, fields: seq<Field>)
    requires off <= |body|
    ensures var r := WalkFields(body, off, fields); r.Some? ==> r.value.1 >= off + MinWidth(fields)
    decreases |fields|
  {
    if fields != [] {
      var first := WalkField(body, off, fields[0]);
      if first.Some? {
        WalkTakesAtLeast(body, first.value.1, fields[1..]);
      }
    }
  }

  lemma {:induction false} RecordsDecode(body: bytes, off: nat, records: seq<seq<Cell>>, fields: seq<Field>)
    requires forall i :: 0 <= i < |records| ==> RecordFits(records[i], fields)
    requires At(body, off, EncodeRecords(records, fields))
    requires |body| < off + |EncodeRecords(records, fields)| + MinWidth(fields)
    ensures WalkRecords(body, off, fields) == AllData(records)
    decreases |records|
  {
    WalkTakesAtLeast(body, off, fields);
    if records != [] {
      var head, tail := EncodeRecord(records[0], fields), EncodeRecords(records[1..], fields);
      AtSplits(body, off, head, tail);
      RecordDecodes(body, off, records[0], fields, off + |head|);
      RecordsDecode(body, off + |head|, records[1..], fields);
    }
  }

  /** On a layout with no variable field, indexing by multiplication yields what walking would. */
  lemma {:induction false} FastPathIsTheWalk(body: bytes, off: nat, fields: seq<Field>)
    requires forall i :: 0 <= i < |fields| ==> !fields[i].Variable()
    requires Width(fields) > 0 && off <= |body|
    ensures FixedRecords(body[off..], fields) == WalkRecords(body, off, fields)
    decreases |body| - off
  {
    var w := Width(fields);
    FixedWalk(body, off, fields);
    if off + w <= |body| {
      FastPathIsTheWalk(body, off + w, fields);
      assert body[off..][..w] == body[off..off + w];
      assert body[off..][w..] == body[off + w..];
    }
  }

  lemma {:induction false} FixedWalk(body: bytes, off: nat, fields: seq<Field>)
    requires forall i :: 0 <= i < |fields| ==> !fields[i].Variable()
    requires off <= |body|
    ensures WalkFields(body, off, fields)
         == if off + Width(fields) > |body| then None
            else Some((SplitFixed(body[off..off + Width(fields)], fields), off + Width(fields)))
    decreases |fields|
  {
    if fields != [] {
      var n, w := fields[0].length, Width(fields);
      if off + n <= |body| {
        FixedWalk(body, off + n, fields[1..]);
        if off + w <= |body| {
          assert body[off..off + w][..n] == body[off..off + n];
          assert body[off..off + w][n..] == body[off + n..off + w];
        }
      }
    }
  }

  /**
   Reading a data set undoes writing it: for any layout, any records in either
   length form, and any trailing padding too short to be a record, exactly
   those records come out, in order.
   */
  lemma DecodingUndoesEncoding(records: seq<seq<Cell>>, t: Template, pad: bytes)
    requires t.fields != []
    requires !t.hasVarLen ==> forall i :: 0 <= i < |t.fields| ==> !t.fields[i].Variable()
    requires forall i :: 0 <= i < |records| ==> RecordFits(records[i], t.fields)
    requires |pad| < MinWidth(t.fields)
    ensures Records(EncodeRecords(records, t.fields) + pad, t) == AllData(records)
  {
    var code := EncodeRecords(records, t.fields);
    AtFront(code, pad);
    RecordsDecode(code + pad, 0, records, t.fields);
    if !t.hasVarLen {
      FixedMinWidth(t.fields);
      FastPathIsTheWalk(code + pad, 0, t.fields);
    }
  }

  lemma FixedMinWidth(fields: seq<Field>)
    requires forall i :: 0 <= i < |fields| ==> !fields[i].Variable()
    ensures MinWidth(fields) == Width(fields)
  {
  }

  // ------------------------------------------------------------ the method

  /** Calls back once per record; the calls, in order, are the result. */
  method EachRecord(body: bytes, t: Template) returns (calls: seq<Values>)
    ensures calls == Records(body, t)
  {
    calls := [];
    if |t.fields| == 0 {
      return;
    }
    if !t.hasVarLen {
      if t.recordLen <= 0 {
        return;
      }
      calls := EachFixed(body, t);
      return;
    }
    var off := 0;
    while off < |body|
      invariant off <= |body|
      invariant calls + WalkRecords(body, off, t.fields) == WalkRecords(body, 0, t.fields)
      decreases |body| - off
    {
      var start := off;
      var ok, vals, next := WalkOne(body, off, t.fields);
      off := next;
      if !ok || off == start {
        assert calls + [] == calls;
        return;
      }
      assert calls + ([vals] + WalkRecords(body, off, t.fields)) == calls + [vals] + WalkRecords(body, off, t.fields);
      calls := calls + [vals];
    }
    assert calls + [] == calls;
  }

  /** The inner loop over one record's fields. */
  method WalkOne(body: bytes, start: nat, fields: seq<Field>) returns (ok: bool, vals: Values, off: nat)
    requires start <= |body|
    ensures off <= |body|
    ensures WalkFields(body, start, fields) == if ok then Some((vals, off)) else None
  {
    off, vals, ok := start, [], true;
    var j := 0;
    assert fields[0..] == fields;
    assert forall rest: Values :: vals + rest == rest;
    while j < |fields|
      invariant 0 <= j <= |fields| && off <= |body| && ok
      invariant WalkFields(body, start, fields)
             == var rest := WalkFields(body, off, fields[j..]);
                if rest.None? then None else Some((vals + rest.value.0, rest.value.1))
    {
      assert fields[j..][1..] == fields[j + 1..];
      ghost var before := vals;
      var found, val, next := TakeField(body, off, fields[j]);
      if !found {
        ok := false;
        return;
      }
      vals := vals + [val];
      off := next;
      j := j + 1;
      assert forall rest: Values :: before + ([val] + rest) == vals + rest;
    }
    assert vals + [] == vals;
  }

  /** One field: its width from the template, or from the record when the template leaves it open. */
  method TakeField(body: bytes, start: nat, f: Field) returns (ok: bool, val: bytes, off: nat)
    requires start <= |body|
    ensures WalkField(body, start, f) == if ok then Some((val, off)) else None
  {
    ok, val, off := false, [], start;
    var width: nat := f.length;
    if f.Variable() {
      if off >= |body| {
        return;
      }
      width := body[off];
      off := off + 1;
      if width == 255 {
        if off + 2 > |body| {
          return;
        }
        width := U16(body, off);
        off := off + 2;
      }
    }
    if off + width > |body| {
      return;
    }
    ok, val, off := true, body[off..off + width], off + width;
  }

  method EachFixed(body: bytes, t: Template) returns (calls: seq<Values>)
    requires !t.hasVarLen && t.recordLen > 0
    ensures calls == FixedRecords(body, t.fields)
  {
    calls := [];
    var i := 0;
    while i + t.recordLen <= |body|
      invariant i <= |body|
      invariant calls + FixedRecords(body[i..], t.fields) == FixedRecords(body, t.fields)
    {
      var rec := body[i..i + t.recordLen];
      var vals := CutFixed(rec, t.fields);
      assert body[i..][..t.recordLen] == rec;
      assert body[i..][t.recordLen..] == body[i + t.recordLen..];
      assert calls + ([vals] + FixedRecords(body[i + t.recordLen..], t.fields))
          == calls + [vals] + FixedRecords(body[i + t.recordLen..], t.fields);
      calls := calls + [vals];
      i := i + t.recordLen;
    }
    assert calls + [] == calls;
  }

  method CutFixed(rec: bytes, fields: seq<Field>) returns (vals: Values)
    requires |rec| == Width(fields)
    ensures vals == SplitFixed(rec, fields)
  {
    vals := [];
    var off := 0;
    var j := 0;
    while j < |fields|
      invariant 0 <= j <= |fields| && off <= |rec|
      invariant |rec| - off == Width(fields[j..])
      invariant vals + SplitFixed(rec[off..], fields[j..]) == SplitFixed(rec, fields)
    {
      var n := fields[j].length;
      assert fields[j..][1..] == fields[j + 1..];
      assert rec[off..][..n] == rec[off..off + n];
      assert rec[off..][n..] == rec[off + n..];
      ghost var rest := SplitFixed(rec[off + n..], fields[j + 1..]);
      assert vals + ([rec[off..off + n]] + rest) == vals + [rec[off..off + n]] + rest;
      vals := vals + [rec[off..off + n]];
      off := off + n;
      j := j + 1;
    }
    assert vals + [] == vals;
  }
}
