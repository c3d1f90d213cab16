/**
 Template and options-template FlowSets of NetFlow v9 (RFC 3954, sections 5
 and 6). A template counts its fields; an options template counts the bytes
 of its field definitions, scope and options apart.
 */
module V9Templates {
  import opened Common
  import opened Bytes
  import opened FlowTypes
  import opened TemplateCache

  // ------------------------------------------------------------ the parser

  function ReadPlainFields(body: bytes, off: nat, count: nat): (fields: seq<Field>)
    requires off + 4 * count <= |body|
    ensures |fields| == count
    decreases count
  {
    if count == 0 then []
    else [Field(U16(body, off), U16(body, off + 2), 0)] + ReadPlainFields(body, off + 4, count - 1)
  }

  function PlainLayout(fields: seq<Field>, scope: nat): Template {
    Layout(fields, Width(fields), false, scope)
  }

  /** One turn over a template FlowSet: what stands at `off`. */
  function TemplateTurn(body: bytes, off: nat): (turn: Turn)
    requires off <= |body|
    ensures !turn.Stop? ==> off < turn.next <= |body|
  {
    if off + 4 > |body| then Stop
    else
      var id, count := U16(body, off), U16(body, off + 2);
      var next := off + 4 + 4 * count;
      if count == 0 || next > |body| then Stop
      else
        var fields := ReadPlainFields(body, off + 4, count);
        if Width(fields) == 0 then Skip(next) else Keep(Announced(id, PlainLayout(fields, 0)), next)
  }

  /** One turn over an options-template FlowSet. */
  function OptionsTurn(body: bytes, off: nat): (turn: Turn)
    requires off <= |body|
    ensures !turn.Stop? ==> off < turn.next <= |body|
  {
    if off + 6 > |body| then Stop
    else
      var id, scopeBytes, optionBytes := U16(body, off), U16(body, off + 2), U16(body, off + 4);
      var next := off + 6 + scopeBytes + optionBytes;
      if scopeBytes % 4 != 0 || optionBytes % 4 != 0 || next > |body| then Stop
      else
        var fields := ReadPlainFields(body, off + 6, (scopeBytes + optionBytes) / 4);
        if Width(fields) == 0 || scopeBytes == 0 then Skip(next)
        else Keep(Announced(id, PlainLayout(fields, scopeBytes / 4)), next)
  }

  function Turning(body: bytes, off: nat, options: bool): (turn: Turn)
    requires off <= |body|
    ensures !turn.Stop? ==> off < turn.next <= |body|
  {
    if options then OptionsTurn(body, off) else TemplateTurn(body, off)
  }

  /** Everything a FlowSet of either kind announces, in order. */
  function Parse(body: bytes, off: nat, options: bool): seq<Announced>
    requires off <= |body|
    decreases |body| - off
  {
    match Turning(body, off, options)
    case Stop => []
    case Skip(next) => Parse(body, next, options)
    case Keep(news, next) => [news] + Parse(body, next, options)
  }

  // ---------------------------------------------------------- the encoding

  /** A definition: its leading `scope` fields are scope rather than data. */
  datatype Definition = Definition(id: uint16, fields: seq<Field>, scope: nat)

  predicate Plain(fields: seq<Field>) {
    forall i :: 0 <= i < |fields| ==> fields[i].enterprise == 0
  }

  predicate Encodable(d: Definition, options: bool) {
    && Plain(d.fields)
    && d.scope <= |d.fields|
    && if options then 4 * |d.fields| < 0x1_0000 else d.scope == 0 && 0 < |d.fields| < 0x1_0000
  }

  ghost function EncodeFields(fields: seq<Field>): (b: bytes)
    ensures |b| == 4 * |fields|
  {
    if fields == [] then [] else PutU16(fields[0].typ) + PutU16(fields[0].length) + EncodeFields(fields[1..])
  }

  ghost function EncodeHeader(d: Definition, options: bool): (b: bytes)
    requires Encodable(d, options)
    ensures |b| == HeaderLen(options)
  {
    if options then PutU16(d.id) + PutU16(4 * d.scope) + PutU16(4 * (|d.fields| - d.scope))
    else PutU16(d.id) + PutU16(|d.fields|)
  }

  function HeaderLen(options: bool): nat {
    if options then 6 else 4
  }

  ghost function EncodeDefinition(d: Definition, options: bool): bytes
    requires Encodable(d, options)
  {
    EncodeHeader(d, options) + EncodeFields(d.fields)
  }

  ghost function EncodeSet(defs: seq<Definition>, options: bool): bytes
    requires forall i :: 0 <= i < |defs| ==> Encodable(defs[i], options)
  {
    if defs == [] then [] else EncodeDefinition(defs[0], options) + EncodeSet(defs[1..], options)
  }

  /** A layout whose records would be empty, or an unscoped options layout, teaches nothing. */
  predicate Teaches(d: Definition, options: bool) {
    Width(d.fields) > 0 && (options ==> d.scope > 0)
  }

  /** What a receiver should learn from a list of definitions, in order. */
  function Learned(defs: seq<Definition>, options: bool): seq<Announced> {
    if defs == [] then []
    else if Teaches(defs[0], options) then
      [Announced(defs[0].id, PlainLayout(defs[0].fields, defs[0].scope))] + Learned(defs[1..], options)
    else Learned(defs[1..], options)
  }

  // ------------------------------------------------------------ round trip

  lemma {:induction false} FieldsRead(body: bytes, off: nat, fields: seq<Field>)
    requires Plain(fields) && At(body, off, EncodeFields(fields))
    ensures ReadPlainFields(body, off, |fields|) == fields
    decreases |fields|
  {
    if fields != [] {
      var head, tail := PutU16(fields[0].typ) + PutU16(fields[0].length), EncodeFields(fields[1..]);
      AtSplits(body, off, head, tail);
      WordsAt(body, off, head, 0);
      U16At(PutU16(fields[0].typ), fields[0].length, []);
      assert PutU16(fields[0].typ) + PutU16(fields[0].length) + [] == head;
      WordsAt(body, off, head, 2);
      FieldsRead(body, off + 4, fields[1..]);
      assert fields == [fields[0]] + fields[1..];
    }
  }

  lemma HeaderWords(d: Definition, options: bool)
    requires Encodable(d, options)
    ensures var code := EncodeHeader(d, options);
            && U16(code, 0) == d.id
            && U16(code, 2) == (if options then 4 * d.scope else |d.fields|)
            && (options ==> U16(code, 4) == 4 * (|d.fields| - d.scope))
  {
    if options {
      U16At(PutU16(d.id), 4 * d.scope, PutU16(4 * (|d.fields| - d.scope)));
      U16At(PutU16(d.id) + PutU16(4 * d.scope), 4 * (|d.fields| - d.scope), []);
      assert PutU16(d.id) + PutU16(4 * d.scope) + PutU16(4 * (|d.fields| - d.scope)) + [] == EncodeHeader(d, options);
    } else {
      U16At(PutU16(d.id), |d.fields|, []);
      assert PutU16(d.id) + PutU16(|d.fields|) + [] == EncodeHeader(d, options);
    }
  }

  lemma DefinitionWords(body: bytes, off: nat, d: Definition, options: bool)
    requires Encodable(d, options) && At(body, off, EncodeDefinition(d, options))
    ensures U16(body, off) == d.id
    ensures U16(body, off + 2) == if options then 4 * d.scope else |d.fields|
    ensures options ==> U16(body, off + 4) == 4 * (|d.fields| - d.scope)
    ensures ReadPlainFields(body, off + HeaderLen(options), |d.fields|) == d.fields
  {
    var head := EncodeHeader(d, options);
    AtSplits(body, off, head, EncodeFields(d.fields));
    HeaderWords(d, options);
    WordsAt(body, off, head, 0);
    WordsAt(body, off, head, 2);
    if options {
      WordsAt(body, off, head, 4);
    }
    FieldsRead(body, off + |head|, d.fields);
  }

  /** The turn over an encoded definition: kept, or skipped when it teaches nothing. */
  function TurnOver(d: Definition, options: bool, next: nat): Turn {
    if Teaches(d, options) then Keep(Announced(d.id, PlainLayout(d.fields, d.scope)), next) else Skip(next)
  }

  lemma TemplateReads(body: bytes, off: nat, d: Definition, next: nat)
    requires Encodable(d, false) && At(body, off, EncodeDefinition(d, false))
    requires next == off + |EncodeDefinition(d, false)|
    ensures TemplateTurn(body, off) == TurnOver(d, false, next)
  {
    DefinitionWords(body, off, d, false);
  }

  lemma OptionsRead(body: bytes, off: nat, d: Definition, next: nat)
    requires Encodable(d, true) && At(body, off, EncodeDefinition(d, true))
    requires next == off + |EncodeDefinition(d, true)|
    ensures OptionsTurn(body, off) == TurnOver(d, true, next)
  {
    DefinitionWords(body, off, d, true);
  }

  lemma DefinitionReads(body: bytes, off: nat, d: Definition, options: bool, next: nat)
    requires Encodable(d, options) && At(body, off, EncodeDefinition(d, options))
    requires next == off + |EncodeDefinition(d, options)|
    ensures Turning(body, off, options) == TurnOver(d, options, next)
  {
    if options {
      OptionsRead(body, off, d, next);
    } else {
      TemplateReads(body, off, d, next);
    }
  }

  lemma {:induction false} SetReads(body: bytes, off: nat, defs: seq<Definition>, options: bool)
    requires forall i :: 0 <= i < |defs| ==> Encodable(defs[i], options)
    requires At(body, off, EncodeSet(defs, options)) && off <= |body|
    requires |body| < off + |EncodeSet(defs, options)| + HeaderLen(options)
    ensures Parse(body, off, options) == Learned(defs, options)
    decreases |defs|
  {
    if defs != [] {
      var head, tail := EncodeDefinition(defs[0], options), EncodeSet(defs[1..], options);
      AtSplits(body, off, head, tail);
      var next := off + |head|;
      DefinitionReads(body, off, defs[0], options, next);
      SetReads(body, next, defs[1..], options);
    }
  }

  /**
   Parsing an encoded FlowSet recovers every definition exactly and in order,
   whatever the padding after the last one.
   */
  lemma ParsingUndoesEncoding(defs: seq<Definition>, options: bool, pad: bytes)
    requires forall i :: 0 <= i < |defs| ==> Encodable(defs[i], options)
    requires |pad| < HeaderLen(options)
    ensures Parse(EncodeSet(defs, options) + pad, 0, options) == Learned(defs, options)
  {
    AtFront(EncodeSet(defs, options), pad);
    SetReads(EncodeSet(defs, options) + pad, 0, defs, options);
  }

  // ----------------------------------------------------------- the methods

  method ReadLayout(body: bytes, start: nat, count: nat) returns (fields: seq<Field>, recordLen: nat)
    requires start + 4 * count <= |body|
    ensures fields == ReadPlainFields(body, start, count)
    ensures recordLen == Width(fields)
  {
    fields, recordLen := [], 0;
    var off := start;
    for i := 0 to count
      invariant off == start + 4 * i && recordLen == Width(fields)
      invariant fields + ReadPlainFields(body, off, count - i) == ReadPlainFields(body, start, count)
    {
      var f := Field(U16(body, off), U16(body, off + 2), 0);
      ghost var rest := ReadPlainFields(body, off + 4, count - i - 1);
      assert fields + ([f] + rest) == fields + [f] + rest;
      WidthOfLast(fields, f);
      fields := fields + [f];
      recordLen := recordLen + f.length;
      off := off + 4;
    }
    assert fields + [] == fields;
  }

  method ReadTemplate(body: bytes, off: nat) returns (turn: Turn)
    requires off <= |body|
    ensures turn == TemplateTurn(body, off)
  {
    if off + 4 > |body| {
      return Stop;
    }
    var id := U16(body, off);
    var count: nat := U16(body, off + 2);
    if count <= 0 || off + 4 + count * 4 > |body| {
      return Stop;
    }
    var fields, recordLen := ReadLayout(body, off + 4, count);
    // A template describing nothing has no records to index.
    if recordLen == 0 {
      return Skip(off + 4 + 4 * count);
    }
    return Keep(Announced(id, Layout(fields, recordLen, false, 0)), off + 4 + 4 * count);
  }

  method ReadOptions(body: bytes, off: nat) returns (turn: Turn)
    requires off <= |body|
    ensures turn == OptionsTurn(body, off)
  {
    if off + 6 > |body| {
      return Stop;
    }
    var id := U16(body, off);
    var scopeBytes: nat := U16(body, off + 2);
    var optionBytes: nat := U16(body, off + 4);
    var next := off + 6 + scopeBytes + optionBytes;
    if scopeBytes % 4 != 0 || optionBytes % 4 != 0 || next > |body| {
      return Stop;
    }
    var fields, recordLen := ReadLayout(body, off + 6, (scopeBytes + optionBytes) / 4);
    if recordLen == 0 || scopeBytes / 4 == 0 {
      return Skip(next);
    }
    return Keep(Announced(id, Layout(fields, recordLen, false, scopeBytes / 4)), next);
  }

  method LearnFlowSet(body: bytes, scope: Scope, cache: Cache, now: int, options: bool)
    requires cache.Valid()
    modifies cache`templates, cache`announced
    ensures cache.Valid()
    ensures cache.templates
         == Learn(old(cache.templates), scope, Parse(body, 0, options), now, Ttl(cache.ttl), Max(cache.max))
    ensures cache.announced == LearnAll(old(cache.announced), scope, Parse(body, 0, options), now)
  {
    var off := 0;
    while true
      invariant off <= |body| && cache.Valid()
      invariant Learn(cache.templates, scope, Parse(body, off, options), now, Ttl(cache.ttl), Max(cache.max))
             == Learn(old(cache.templates), scope, Parse(body, 0, options), now, Ttl(cache.ttl), Max(cache.max))
      invariant LearnAll(cache.announced, scope, Parse(body, off, options), now)
             == LearnAll(old(cache.announced), scope, Parse(body, 0, options), now)
      decreases |body| - off
    {
      var turn: Turn;
      if options {
        turn := ReadOptions(body, off);
      } else {
        turn := ReadTemplate(body, off);
      }
      match turn {
        case Stop =>
          return;
        case Skip(next) =>
          off := next;
        case Keep(news, next) =>
          off := next;
          assert ([news] + Parse(body, off, options))[1..] == Parse(body, off, options);
          cache.Put(KeyFor(scope, news.id), news.template, now);
      }
    }
  }
}
