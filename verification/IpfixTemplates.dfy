/**
 Template Sets and Options Template Sets of IPFIX (RFC 7011, sections 3.2,
 3.4.1 and 3.4.2): what parsing one announces, and that it announces exactly
 what was encoded.
 */
module IpfixTemplates {
  import opened Common
  import opened Bytes
  import opened FlowTypes
  import opened RecordWalk
  import opened TemplateCache

  const ENTERPRISE_BIT: nat := 0x8000

  /** An element identifier, the enterprise bit aside. */
  type ElementId = x: int | 0 <= x < ENTERPRISE_BIT

  // ------------------------------------------------------------ the parser

  predicate HasVariable(fields: seq<Field>) {
    fields != [] && (fields[|fields| - 1].Variable() || HasVariable(fields[..|fields| - 1]))
  }

  predicate HasZeroWidth(fields: seq<Field>) {
    fields != [] && (fields[|fields| - 1].length == 0 || HasZeroWidth(fields[..|fields| - 1]))
  }

  /** The widths the template fixes, summed. */
  function FixedWidth(fields: seq<Field>): nat {
    if fields == [] then 0
    else (if fields[|fields| - 1].Variable() then 0 else fields[|fields| - 1].length) + FixedWidth(fields[..|fields| - 1])
  }

  /** The layout of a field list; without variable fields the record width is all of them. */
  function LayoutOf(fields: seq<Field>, scope: nat): Template {
    if HasVariable(fields) then Layout(fields, FixedWidth(fields), true, scope)
    else Layout(fields, Width(fields), false, scope)
  }

  /** A layout worth keeping: every field can advance the walk. */
  predicate Usable(fields: seq<Field>) {
    !HasZeroWidth(fields) && (HasVariable(fields) || Width(fields) > 0)
  }

  /** One field specifier at `off`, with its enterprise number if it has one. */
  function ReadField(body: bytes, off: nat): (r: Option<(Field, nat)>)
    ensures r.Some? ==> off < r.value.1 <= |body|
  {
    if off + 4 > |body| then None
    else
      var raw, length := U16(body, off), U16(body, off + 2);
      if raw < ENTERPRISE_BIT then Some((Field(raw, length, 0), off + 4))
      else if off + 8 > |body| then None
      else Some((Field(raw - ENTERPRISE_BIT, length, U32(body, off + 4)), off + 8))
  }

  function ReadFields(body: bytes, off: nat, count: nat): (r: Option<(seq<Field>, nat)>)
    requires off <= |body|
    ensures r.Some? ==> off <= r.value.1 <= |body|
    decreases count
  {
    if count == 0 then Some(([], off))
    else
      var first := ReadField(body, off);
      if first.None? then None
      else
        var rest := ReadFields(body, first.value.1, count - 1);
        if rest.None? then None else Some(([first.value.0] + rest.value.0, rest.value.1))
  }

  function HeaderLen(options: bool): nat {
    if options then 6 else 4
  }

  /** One turn over a set's body: what stands at `off`. */
  function SetTurn(body: bytes, off: nat, options: bool): (turn: Turn)
    requires off <= |body|
    ensures !turn.Stop? ==> off < turn.next <= |body|
  {
    if off + HeaderLen(options) > |body| then Stop
    else
      var id, count := U16(body, off), U16(body, off + 2);
      var scope: nat := if options then U16(body, off + 4) else 0;
      var next := off + HeaderLen(options);
      if count == 0 then Skip(next)
      else if options && (scope == 0 || scope > count) then Stop
      else
        var read := ReadFields(body, next, count);
        if read.None? then Stop
        else if !Usable(read.value.0) then Skip(read.value.1)
        else Keep(Announced(id, LayoutOf(read.value.0, scope)), read.value.1)
  }

  /** Everything a set's body announces, in order. */
  function ParseSet(body: bytes, off: nat, options: bool): seq<Announced>
    requires off <= |body|
    decreases |body| - off
  {
    match SetTurn(body, off, options)
    case Stop => []
    case Skip(next) => ParseSet(body, next, options)
    case Keep(news, next) => [news] + ParseSet(body, next, options)
  }

  // ---------------------------------------------------------- the encoding

  /** A field specifier as an exporter means it. */
  datatype Spec = Spec(element: ElementId, length: uint16, enterprise: Option<uint32>)

  /** A record of a template set; `scope` is zero in a plain set. */
  datatype TemplateRecord = Define(id: uint16, specs: seq<Spec>, scope: uint16) | Withdraw(id: uint16)

  predicate Encodable(r: TemplateRecord, options: bool) {
    match r
    case Define(_, specs, scope) =>
      && 0 < |specs| < 0x1_0000
      && (if options then 0 < scope as int <= |specs| else scope == 0)
    case Withdraw(_) => true
  }

  /** `code` is a field specifier: element, length and, if the enterprise bit is set, a number. */
  predicate Specifies(code: bytes, s: Spec) {
    match s.enterprise
    case None => |code| == 4 && U16(code, 0) == s.element && U16(code, 2) == s.length
    case Some(number) =>
      |code| == 8 && U16(code, 0) == s.element + ENTERPRISE_BIT && U16(code, 2) == s.length && U32(code, 4) == number
  }

  lemma SpecifierExists(s: Spec)
    ensures exists code: bytes :: Specifies(code, s)
  {
    match s.enterprise
    case None =>
      var code := PutU16(s.element) + PutU16(s.length);
      U16At(PutU16(s.element), s.length, []);
      assert PutU16(s.element) + PutU16(s.length) + [] == code;
      assert Specifies(code, s);
    case Some(number) =>
      var first := PutU16(s.element + ENTERPRISE_BIT);
      var code := first + PutU16(s.length) + PutU32(number);
      U16At(first, s.length, PutU32(number));
      U32At(first + PutU16(s.length), number, []);
      assert code + [] == code;
      assert Specifies(code, s);
  }

  ghost function EncodeSpec(s: Spec): (code: bytes)
    ensures Specifies(code, s)
  {
    SpecifierExists(s);
    var code: bytes :| Specifies(code, s);
    code
  }

  ghost function EncodeSpecs(specs: seq<Spec>): bytes
  {
    if specs == [] then [] else EncodeSpec(specs[0]) + EncodeSpecs(specs[1..])
  }

  /** `code` is a template record's header. */
  predicate Heads(code: bytes, id: uint16, count: uint16, scope: uint16, options: bool) {
    |code| == HeaderLen(options) && U16(code, 0) == id && U16(code, 2) == count && (options ==> U16(code, 4) == scope)
  }

  lemma HeaderExists(id: uint16, count: uint16, scope: uint16, options: bool)
    ensures exists code: bytes :: Heads(code, id, count, scope, options)
  {
    var plain := PutU16(id) + PutU16(count);
    U16At(PutU16(id), count, if options then PutU16(scope) else []);
    U16At(plain, scope, []);
    assert plain + [] == plain && plain + PutU16(scope) + [] == plain + PutU16(scope);
    assert Heads(if options then plain + PutU16(scope) else plain, id, count, scope, options);
  }

  ghost function EncodeHeader(id: uint16, count: uint16, scope: uint16, options: bool): (code: bytes)
    ensures Heads(code, id, count, scope, options)
  {
    HeaderExists(id, count, scope, options);
    var code: bytes :| Heads(code, id, count, scope, options);
    code
  }

  /** A withdrawal is an identifier and a zero in either kind of set (section 8.1). */
  ghost function EncodeTemplate(r: TemplateRecord, options: bool): bytes
    requires Encodable(r, options)
  {
    match r
    case Define(id, specs, scope) => EncodeHeader(id, |specs|, scope, options) + EncodeSpecs(specs)
    case Withdraw(id) => EncodeHeader(id, 0, 0, false)
  }

  ghost function EncodeSet(records: seq<TemplateRecord>, options: bool): bytes
    requires forall i :: 0 <= i < |records| ==> Encodable(records[i], options)
  {
    if records == [] then [] else EncodeTemplate(records[0], options) + EncodeSet(records[1..], options)
  }

  /** The field a specifier stands for; no enterprise number and number zero read alike. */
  function Meant(s: Spec): Field {
    Field(s.element, s.length, s.enterprise.GetOr(0))
  }

  function MeantFields(specs: seq<Spec>): (fields: seq<Field>)
    ensures |fields| == |specs|
  {
    if specs == [] then [] else [Meant(specs[0])] + MeantFields(specs[1..])
  }

  /** Withdrawals and layouts that could not advance a walk teach nothing. */
  predicate Teaches(r: TemplateRecord) {
    r.Define? && Usable(MeantFields(r.specs))
  }

  /** What a receiver should learn from a list of records, in order. */
  function Learned(records: seq<TemplateRecord>): seq<Announced> {
    if records == [] then []
    else if Teaches(records[0]) then
      [Announced(records[0].id, LayoutOf(MeantFields(records[0].specs), records[0].scope))] + Learned(records[1..])
    else Learned(records[1..])
  }

  // ------------------------------------------------------------ round trip

  lemma FieldReads(body: bytes, off: nat, s: Spec)
    requires At(body, off, EncodeSpec(s))
    ensures ReadField(body, off) == Some((Meant(s), off + |EncodeSpec(s)|))
  {
    var code := EncodeSpec(s);
    WordsAt(body, off, code, 0);
    WordsAt(body, off, code, 2);
    WordsAt(body, off, code, 4);
  }

  lemma SpecsSplit(body: bytes, off: nat, specs: seq<Spec>) returns (mid: nat)
    requires specs != []
    requires At(body, off, EncodeSpecs(specs))
    ensures mid == off + |EncodeSpec(specs[0])| <= |body|
    ensures At(body, off, EncodeSpec(specs[0]))
    ensures At(body, mid, EncodeSpecs(specs[1..]))
    ensures mid + |EncodeSpecs(specs[1..])| == off + |EncodeSpecs(specs)|
  {
    AtSplits(body, off, EncodeSpec(specs[0]), EncodeSpecs(specs[1..]));
    mid := off + |EncodeSpec(specs[0])|;
  }

  lemma {:induction false} FieldsRead(body: bytes, off: nat, specs: seq<Spec>, end: nat)
    requires At(body, off, EncodeSpecs(specs)) && end == off + |EncodeSpecs(specs)|
    ensures ReadFields(body, off, |specs|) == Some((MeantFields(specs), end))
    decreases |specs|
  {
    if specs != [] {
      var mid := SpecsSplit(body, off, specs);
      FieldReads(body, off, specs[0]);
      FieldsRead(body, mid, specs[1..], end);
    }
  }

  lemma HeaderReads(body: bytes, off: nat, id: uint16, count: uint16, scope: uint16, options: bool)
    requires At(body, off, EncodeHeader(id, count, scope, options))
    ensures U16(body, off) == id && U16(body, off + 2) == count
    ensures options ==> U16(body, off + 4) == scope
  {
    var code := EncodeHeader(id, count, scope, options);
    WordsAt(body, off, code, 0);
    WordsAt(body, off, code, 2);
    WordsAt(body, off, code, 4);
  }

  lemma DefinitionReads(body: bytes, off: nat, r: TemplateRecord, options: bool, next: nat)
    requires r.Define? && Encodable(r, options) && At(body, off, EncodeTemplate(r, options))
    requires next == off + |EncodeTemplate(r, options)|
    ensures ReadFields(body, off + HeaderLen(options), |r.specs|) == Some((MeantFields(r.specs), next))
    ensures U16(body, off) == r.id && U16(body, off + 2) == |r.specs|
    ensures options ==> U16(body, off + 4) == r.scope
  {
    var header := EncodeHeader(r.id, |r.specs|, r.scope, options);
    AtSplits(body, off, header, EncodeSpecs(r.specs));
    HeaderReads(body, off, r.id, |r.specs|, r.scope, options);
    FieldsRead(body, off + |header|, r.specs, next);
  }

  /** The turn over an encoded record: kept, or skipped when it teaches nothing. */
  function TurnOver(r: TemplateRecord, next: nat): Turn {
    if Teaches(r) then Keep(Announced(r.id, LayoutOf(MeantFields(r.specs), r.scope)), next)
    else Skip(next)
  }

  lemma RecordReads(body: bytes, off: nat, r: TemplateRecord, options: bool, next: nat)
    requires Encodable(r, options) && At(body, off, EncodeTemplate(r, options))
    requires options ==> r.Define?
    requires next == off + |EncodeTemplate(r, options)|
    ensures SetTurn(body, off, options) == TurnOver(r, next)
  {
    if r.Withdraw? {
      HeaderReads(body, off, r.id, 0, 0, options);
    } else {
      DefinitionReads(body, off, r, options, next);
    }
  }

  predicate AllWithdraw(records: seq<TemplateRecord>) {
    forall i :: 0 <= i < |records| ==> records[i].Withdraw?
  }

  /** No definition comes after a withdrawal. */
  predicate WithdrawalsLast(records: seq<TemplateRecord>) {
    forall i, j :: 0 <= i < j < |records| && records[i].Withdraw? ==> records[j].Withdraw?
  }

  lemma WithdrawalReads(body: bytes, off: nat, records: seq<TemplateRecord>)
    requires records != [] && records[0].Withdraw?
    requires forall i :: 0 <= i < |records| ==> Encodable(records[i], true)
    requires At(body, off, EncodeSet(records, true))
    ensures |EncodeSet(records, true)| == 4 + |EncodeSet(records[1..], true)|
    ensures off + 4 <= |body| && U16(body, off) == records[0].id && U16(body, off + 2) == 0
    ensures At(body, off + 4, EncodeSet(records[1..], true))
  {
    AtSplits(body, off, EncodeTemplate(records[0], true), EncodeSet(records[1..], true));
    HeaderReads(body, off, records[0].id, 0, 0, false);
  }

  /**
   Options withdrawals, read two bytes too long each: the turns slip into the
   middle of the next one, and still announce nothing.
   */
  lemma {:induction false} WithdrawalsAnnounceNothing(body: bytes, off: nat, records: seq<TemplateRecord>)
    requires AllWithdraw(records) && off <= |body|
    requires At(body, off, EncodeSet(records, true))
    requires |body| < off + |EncodeSet(records, true)| + HeaderLen(true)
    ensures ParseSet(body, off, true) == []
    decreases |records|
  {
    if records != [] && off + 6 <= |body| {
      WithdrawalReads(body, off, records);
      assert SetTurn(body, off, true) == Skip(off + 6);
      if |records| >= 2 {
        WithdrawalReads(body, off + 4, records[1..]);
        if |records| >= 3 {
          WithdrawalReads(body, off + 8, records[2..]);
          var turn := SetTurn(body, off + 6, true);
          if turn == Skip(off + 12) {
            assert records[1..][1..][1..] == records[3..];
            WithdrawalsAnnounceNothing(body, off + 12, records[3..]);
          }
        } else {
          TooShortToAnnounce(body, off + 6);
        }
      }
    }
  }

  lemma TooShortToAnnounce(body: bytes, off: nat)
    requires off <= |body| < off + 8
    ensures ParseSet(body, off, true) == []
  {
    var turn := SetTurn(body, off, true);
    if off + 6 <= |body| && U16(body, off + 2) != 0 {
      assert ReadFields(body, off + 6, U16(body, off + 2)).None?;
    }
  }

  lemma {:induction false} WithdrawalsTeachNothing(records: seq<TemplateRecord>)
    requires AllWithdraw(records)
    ensures Learned(records) == []
  {
    if records != [] {
      WithdrawalsTeachNothing(records[1..]);
    }
  }

  lemma {:induction false} LearnedJoins(a: seq<TemplateRecord>, b: seq<TemplateRecord>)
    ensures Learned(a + b) == Learned(a) + Learned(b)
  {
    if a == [] {
      assert a + b == b;
    } else {
      assert (a + b)[1..] == a[1..] + b;
      LearnedJoins(a[1..], b);
    }
  }

  lemma EncodingSplits(records: seq<TemplateRecord>, options: bool)
    requires records != [] && forall i :: 0 <= i < |records| ==> Encodable(records[i], options)
    ensures EncodeSet(records, options) == EncodeTemplate(records[0], options) + EncodeSet(records[1..], options)
  {
  }

  lemma AtParts(body: bytes, off: nat, whole: bytes, head: bytes, tail: bytes)
    requires At(body, off, whole) && whole == head + tail
    ensures At(body, off, head) && At(body, off + |head|, tail)
  {
    AtSplits(body, off, head, tail);
  }

  lemma RecordAtFront(body: bytes, off: nat, records: seq<TemplateRecord>, options: bool) returns (next: nat)
    requires records != [] && off <= |body| && (options ==> records[0].Define?)
    requires forall i :: 0 <= i < |records| ==> Encodable(records[i], options)
    requires At(body, off, EncodeSet(records, options))
    ensures next <= |body| && At(body, next, EncodeSet(records[1..], options))
    ensures next + |EncodeSet(records[1..], options)| == off + |EncodeSet(records, options)|
    ensures SetTurn(body, off, options) == TurnOver(records[0], next)
  {
    var head, tail := EncodeTemplate(records[0], options), EncodeSet(records[1..], options);
    EncodingSplits(records, options);
    AtParts(body, off, EncodeSet(records, options), head, tail);
    next := off + |head|;
    RecordReads(body, off, records[0], options, next);
  }

  lemma TurnParses(body: bytes, off: nat, r: TemplateRecord, options: bool, next: nat)
    requires off <= |body| && SetTurn(body, off, options) == TurnOver(r, next)
    ensures off < next <= |body| && ParseSet(body, off, options) == Learned([r]) + ParseSet(body, next, options)
  {
    assert [r][1..] == [];
  }

  /** A record at the front is announced if it teaches anything, and parsing goes on behind it. */
  lemma RecordThenRest(body: bytes, off: nat, records: seq<TemplateRecord>, options: bool) returns (next: nat)
    requires records != [] && off <= |body| && (options ==> records[0].Define?)
    requires forall i :: 0 <= i < |records| ==> Encodable(records[i], options)
    requires At(body, off, EncodeSet(records, options))
    ensures next <= |body| && At(body, next, EncodeSet(records[1..], options))
    ensures next + |EncodeSet(records[1..], options)| == off + |EncodeSet(records, options)|
    ensures ParseSet(body, off, options) == Learned([records[0]]) + ParseSet(body, next, options)
  {
    next := RecordAtFront(body, off, records, options);
    TurnParses(body, off, records[0], options, next);
  }

  lemma {:induction false} SetReads(body: bytes, off: nat, records: seq<TemplateRecord>, options: bool)
    requires forall i :: 0 <= i < |records| ==> Encodable(records[i], options)
    requires options ==> WithdrawalsLast(records)
    requires At(body, off, EncodeSet(records, options)) && off <= |body|
    requires |body| < off + |EncodeSet(records, options)| + HeaderLen(options)
    ensures ParseSet(body, off, options) == Learned(records)
    decreases |records|
  {
    if options && records != [] && records[0].Withdraw? {
      WithdrawalsAnnounceNothing(body, off, records);
      WithdrawalsTeachNothing(records);
    } else if records != [] {
      var next := RecordThenRest(body, off, records, options);
      SetReads(body, next, records[1..], options);
      LearnedJoins([records[0]], records[1..]);
      assert records == [records[0]] + records[1..];
    }
  }

  /**
   Parsing an encoded set recovers every usable template exactly and in order,
   with enterprise and plain fields mixed, and any trailing padding too short to
   be a header. Withdrawals may stand anywhere in a template set; in an options
   set this holds while no definition follows one.
   */
  lemma ParsingUndoesEncoding(records: seq<TemplateRecord>, options: bool, pad: bytes)
    requires forall i :: 0 <= i < |records| ==> Encodable(records[i], options)
    requires options ==> WithdrawalsLast(records)
    requires |pad| < HeaderLen(options)
    ensures ParseSet(EncodeSet(records, options) + pad, 0, options) == Learned(records)
  {
    AtFront(EncodeSet(records, options), pad);
    SetReads(EncodeSet(records, options) + pad, 0, records, options);
  }

  // ------------------------------------- definitions after an options withdrawal

  /** The number that starts a definition's field list, enterprise bit and all. */
  function FirstWord(r: TemplateRecord): nat
    requires r.Define?
  {
    if r.specs == [] then 0 else r.specs[0].element + (if r.specs[0].enterprise.Some? then ENTERPRISE_BIT else 0)
  }

  lemma DefinitionStarts(body: bytes, off: nat, records: seq<TemplateRecord>)
    requires records != [] && records[0].Define?
    requires forall i :: 0 <= i < |records| ==> Encodable(records[i], true)
    requires At(body, off, EncodeSet(records, true))
    ensures off + 10 <= |body|
    ensures U16(body, off) == records[0].id && U16(body, off + 2) == |records[0].specs|
    ensures U16(body, off + 4) == records[0].scope && U16(body, off + 6) == FirstWord(records[0])
  {
    var d := records[0];
    var header := EncodeHeader(d.id, |d.specs|, d.scope, true);
    AtSplits(body, off, EncodeTemplate(d, true), EncodeSet(records[1..], true));
    AtSplits(body, off, header, EncodeSpecs(d.specs));
    HeaderReads(body, off, d.id, |d.specs|, d.scope, true);
    AtSplits(body, off + 6, EncodeSpec(d.specs[0]), EncodeSpecs(d.specs[1..]));
    WordsAt(body, off + 6, EncodeSpec(d.specs[0]), 0);
  }

  /**
   A withdrawal is read together with the next definition's identifier. Its
   scope count then passes for a field count, and its first field for a scope
   count; if that is larger, the rest of the set is dropped.
   */
  lemma WithdrawalHidesTheRest(body: bytes, off: nat, records: seq<TemplateRecord>)
    requires |records| >= 2 && records[0].Withdraw? && records[1].Define?
    requires forall i :: 0 <= i < |records| ==> Encodable(records[i], true)
    requires At(body, off, EncodeSet(records, true)) && off <= |body|
    requires FirstWord(records[1]) > records[1].scope
    ensures ParseSet(body, off, true) == []
  {
    WithdrawalReads(body, off, records);
    DefinitionStarts(body, off + 4, records[1..]);
    assert SetTurn(body, off, true) == Skip(off + 6);
    assert SetTurn(body, off + 6, true) == Stop;
  }

  /** Two withdrawals in a row hide one of a definition with more fields than its own identifier says, or another withdrawal. */
  lemma TwoWithdrawalsHideTheRest(body: bytes, off: nat, records: seq<TemplateRecord>)
    requires |records| >= 3 && records[0].Withdraw? && records[1].Withdraw?
    requires forall i :: 0 <= i < |records| ==> Encodable(records[i], true)
    requires At(body, off, EncodeSet(records, true)) && off <= |body|
    requires records[2].id > 0 && (records[2].Define? ==> |records[2].specs| > records[2].id)
    ensures ParseSet(body, off, true) == []
  {
    WithdrawalReads(body, off, records);
    WithdrawalReads(body, off + 4, records[1..]);
    var third := records[1..][1..];
    assert third == records[2..];
    assert SetTurn(body, off, true) == Skip(off + 6);
    if third[0].Withdraw? {
      WithdrawalReads(body, off + 8, third);
    } else {
      DefinitionStarts(body, off + 8, third);
    }
    assert SetTurn(body, off + 6, true) == Stop;
  }

  lemma Regroup<T>(a: seq<T>, b: seq<T>, c: seq<T>)
    ensures (a + b) + c == a + (b + c)
  {
  }

  lemma NextDefinition(body: bytes, off: nat, records: seq<TemplateRecord>, n: nat) returns (next: nat)
    requires n < |records| && off <= |body| && records[n].Define?
    requires forall i :: 0 <= i < |records| ==> Encodable(records[i], true)
    requires At(body, off, EncodeSet(records[n..], true))
    ensures next <= |body| && At(body, next, EncodeSet(records[n + 1..], true))
    ensures ParseSet(body, off, true) == Learned([records[n]]) + ParseSet(body, next, true)
  {
    var left := records[n..];
    next := RecordThenRest(body, off, left, true);
    assert left[1..] == records[n + 1..] && left[0] == records[n];
  }

  lemma LearnedOneMore(records: seq<TemplateRecord>, n: nat)
    requires n < |records|
    ensures Learned(records[..n + 1]) == Learned(records[..n]) + Learned([records[n]])
  {
    assert records[..n + 1] == records[..n] + [records[n]];
    LearnedJoins(records[..n], [records[n]]);
  }

  /** The definitions at the front are learned, and parsing goes on behind them. */
  lemma {:induction false} DefinitionsThenRest(body: bytes, off: nat, records: seq<TemplateRecord>, n: nat) returns (next: nat)
    requires n <= |records| && off <= |body| && forall i :: 0 <= i < n ==> records[i].Define?
    requires forall i :: 0 <= i < |records| ==> Encodable(records[i], true)
    requires At(body, off, EncodeSet(records, true))
    ensures next <= |body| && At(body, next, EncodeSet(records[n..], true))
    ensures ParseSet(body, off, true) == Learned(records[..n]) + ParseSet(body, next, true)
  {
    if n == 0 {
      next := off;
      assert records[0..] == records && records[..0] == [];
    } else {
      var mid := DefinitionsThenRest(body, off, records, n - 1);
      next := NextDefinition(body, mid, records, n - 1);
      LearnedOneMore(records, n - 1);
      Regroup(Learned(records[..n - 1]), Learned([records[n - 1]]), ParseSet(body, next, true));
    }
  }

  /** What is defined before a withdrawal that hides the rest is learned, and nothing after it. */
  lemma OnlyEarlierDefinitionsAreLearned(body: bytes, off: nat, records: seq<TemplateRecord>, n: nat)
    requires n + 1 < |records| && off <= |body| && forall i :: 0 <= i < n ==> records[i].Define?
    requires records[n].Withdraw? && records[n + 1].Define? && FirstWord(records[n + 1]) > records[n + 1].scope
    requires forall i :: 0 <= i < |records| ==> Encodable(records[i], true)
    requires At(body, off, EncodeSet(records, true))
    ensures ParseSet(body, off, true) == Learned(records[..n])
  {
    var next := DefinitionsThenRest(body, off, records, n);
    assert records[n..][0] == records[n] && records[n..][1] == records[n + 1];
    WithdrawalHidesTheRest(body, next, records[n..]);
  }

  /** Which records of an options set are withdrawals. */
  predicate Arranged(records: seq<TemplateRecord>, withdrawn: seq<bool>) {
    |records| == |withdrawn| && forall i :: 0 <= i < |records| ==> records[i].Withdraw? == withdrawn[i]
  }

  /** Options sets with their withdrawals at these places are always parsed as encoded. */
  ghost predicate AlwaysReadRight(withdrawn: seq<bool>) {
    forall records: seq<TemplateRecord>, pad: bytes ::
      Arranged(records, withdrawn) && (forall i :: 0 <= i < |records| ==> Encodable(records[i], true)) && |pad| < HeaderLen(true)
      ==> ParseSet(EncodeSet(records, true) + pad, 0, true) == Learned(records)
  }

  /** Three hundred four-byte fields: more than its own identifier counts. */
  function Wide(): (r: TemplateRecord)
    ensures r.Define? && r.id == 256 && r.scope == 1 && |r.specs| == 300
    ensures forall i :: 0 <= i < 300 ==> r.specs[i] == Spec(1000, 4, None)
  {
    Define(256, seq(300, i => Spec(1000, 4, None)), 1)
  }

  function Sample(withdrawn: seq<bool>): (records: seq<TemplateRecord>)
    ensures |records| == |withdrawn|
    ensures forall i :: 0 <= i < |records| ==> records[i] == (if withdrawn[i] then Withdraw(256) else Wide())
  {
    seq(|withdrawn|, i requires 0 <= i < |withdrawn| => if withdrawn[i] then Withdraw(256) else Wide())
  }

  /** Made of that definition and of its withdrawal. */
  predicate Uniform(records: seq<TemplateRecord>)
    ensures Uniform(records) ==> forall i :: 0 <= i < |records| ==> Encodable(records[i], true)
  {
    forall i :: 0 <= i < |records| ==> records[i] == Withdraw(256) || records[i] == Wide()
  }

  lemma {:induction false} FoursAreUsable(fields: seq<Field>)
    requires forall i :: 0 <= i < |fields| ==> fields[i].length == 4
    ensures !HasZeroWidth(fields) && (fields != [] ==> Width(fields) > 0)
  {
    if fields != [] {
      FoursAreUsable(fields[..|fields| - 1]);
    }
  }

  lemma {:induction false} MeantFieldsAre(specs: seq<Spec>, i: nat)
    requires i < |specs|
    ensures MeantFields(specs)[i] == Meant(specs[i])
  {
    if i > 0 {
      MeantFieldsAre(specs[1..], i - 1);
    }
  }

  lemma WideTeaches()
    ensures Teaches(Wide())
  {
    forall i | 0 <= i < 300
      ensures MeantFields(Wide().specs)[i].length == 4
    {
      MeantFieldsAre(Wide().specs, i);
    }
    FoursAreUsable(MeantFields(Wide().specs));
  }

  lemma {:induction false} UniformTeaches(records: seq<TemplateRecord>, j: nat)
    requires Uniform(records) && j < |records| && records[j].Define?
    ensures Learned(records) != []
  {
    WideTeaches();
    if j > 0 {
      UniformTeaches(records[1..], j - 1);
    }
  }

  lemma UniformStops(body: bytes, off: nat, records: seq<TemplateRecord>, j: nat)
    requires Uniform(records) && j < |records| && records[j].Define? && records[0].Withdraw?
    requires At(body, off, EncodeSet(records, true)) && off <= |body|
    ensures ParseSet(body, off, true) == []
  {
    if records[1].Withdraw? {
      TwoWithdrawalsHideTheRest(body, off, records);
    } else {
      WithdrawalHidesTheRest(body, off, records);
    }
  }

  lemma TailIsMissed(read: seq<Announced>, records: seq<TemplateRecord>, n: nat)
    requires n <= |records| && read == Learned(records[..n]) + [] && Learned(records[n..]) != []
    ensures read != Learned(records)
  {
    LearnedJoins(records[..n], records[n..]);
    assert records == records[..n] + records[n..];
    assert |read| == |Learned(records[..n])|;
  }

  /** Where parsing finds nothing behind the first definitions, what the rest teaches is missed. */
  lemma RestIsMissed(body: bytes, off: nat, records: seq<TemplateRecord>, n: nat)
    requires n <= |records| && off <= |body| && forall i :: 0 <= i < n ==> records[i].Define?
    requires forall i :: 0 <= i < |records| ==> Encodable(records[i], true)
    requires At(body, off, EncodeSet(records, true))
    requires forall next: nat :: next <= |body| && At(body, next, EncodeSet(records[n..], true)) ==> ParseSet(body, next, true) == []
    requires Learned(records[n..]) != []
    ensures ParseSet(body, off, true) != Learned(records)
  {
    var next := DefinitionsThenRest(body, off, records, n);
    assert ParseSet(body, next, true) == [];
    TailIsMissed(ParseSet(body, off, true), records, n);
  }

  lemma UniformRestIsMissed(body: bytes, records: seq<TemplateRecord>, i: nat, j: nat)
    requires Uniform(records) && i < j < |records| && records[i].Withdraw? && records[j].Define?
    ensures forall next: nat :: next <= |body| && At(body, next, EncodeSet(records[i..], true)) ==> ParseSet(body, next, true) == []
    ensures Learned(records[i..]) != []
  {
    var left := records[i..];
    assert left[0] == records[i] && left[j - i] == records[j];
    UniformTeaches(left, j - i);
    forall next: nat | next <= |body| && At(body, next, EncodeSet(left, true))
      ensures ParseSet(body, next, true) == []
    {
      UniformStops(body, next, left, j - i);
    }
  }

  lemma {:induction false} FirstWithdrawal(withdrawn: seq<bool>, i: nat) returns (first: nat)
    requires i < |withdrawn| && withdrawn[i]
    ensures first <= i && withdrawn[first] && forall k :: 0 <= k < first ==> !withdrawn[k]
  {
    first := i;
    if k :| 0 <= k < i && withdrawn[k] {
      first := FirstWithdrawal(withdrawn, k);
    }
  }

  lemma ArrangementIsMisread(withdrawn: seq<bool>, i: nat, j: nat)
    requires i < j < |withdrawn| && withdrawn[i] && !withdrawn[j]
    ensures !AlwaysReadRight(withdrawn)
  {
    var first := FirstWithdrawal(withdrawn, i);
    var records := Sample(withdrawn);
    assert Uniform(records) && Arranged(records, withdrawn);
    AtFront(EncodeSet(records, true), []);
    UniformRestIsMissed(EncodeSet(records, true) + [], records, first, j);
    RestIsMissed(EncodeSet(records, true) + [], 0, records, first);
  }

  /**
   Options sets are parsed as encoded, whatever their definitions, exactly when
   no definition follows a withdrawal.
   */
  lemma ReadRightExactlyWhenWithdrawalsLast(withdrawn: seq<bool>)
    ensures AlwaysReadRight(withdrawn) <==> forall i, j :: 0 <= i < j < |withdrawn| && withdrawn[i] ==> withdrawn[j]
  {
    if forall i, j :: 0 <= i < j < |withdrawn| && withdrawn[i] ==> withdrawn[j] {
      forall records: seq<TemplateRecord>, pad: bytes
        | Arranged(records, withdrawn) && (forall i :: 0 <= i < |records| ==> Encodable(records[i], true)) && |pad| < HeaderLen(true)
        ensures ParseSet(EncodeSet(records, true) + pad, 0, true) == Learned(records)
      {
        ParsingUndoesEncoding(records, true, pad);
      }
    } else {
      var i, j :| 0 <= i < j < |withdrawn| && withdrawn[i] && !withdrawn[j];
      ArrangementIsMisread(withdrawn, i, j);
    }
  }

  lemma {:induction false} FixedWidthIsWidth(fields: seq<Field>)
    requires !HasVariable(fields)
    ensures FixedWidth(fields) == Width(fields)
  {
    if fields != [] {
      var n := |fields| - 1;
      FixedWidthIsWidth(fields[..n]);
      WidthOfLast(fields[..n], fields[n]);
      assert fields[..n] + [fields[n]] == fields;
    }
  }

  // ------------------------------------------------- what the cache learns

  /** Encoded, sent, parsed and cached: the receiver holds the last definition of every id. */
  lemma SetReachesCache(m: Entries, scope: Scope, records: seq<TemplateRecord>, options: bool, pad: bytes, now: int, ttl: int, max: int, id: uint16)
    requires forall i :: 0 <= i < |records| ==> Encodable(records[i], options)
    requires options ==> WithdrawalsLast(records)
    requires |pad| < HeaderLen(options)
    requires |m| + |records| <= max && ttl > 0
    ensures var m' := Learn(m, scope, ParseSet(EncodeSet(records, options) + pad, 0, options), now, ttl, max);
            Latest(Learned(records), id).Some?
            ==> GetBounded(m', KeyFor(scope, id), now, ttl).1 == Latest(Learned(records), id)
  {
    ParsingUndoesEncoding(records, options, pad);
    LearnedNoMore(records);
    LearnedWithRoom(m, scope, Learned(records), now, ttl, max, id);
  }

  lemma LearnedNoMore(records: seq<TemplateRecord>)
    ensures |Learned(records)| <= |records|
  {
  }

  // ------------------------------------------------------------ the method

  method ParseIpfixTemplates(body: bytes, scope: Scope, cache: Cache, now: int, options: bool)
    requires cache.Valid()
    modifies cache`templates, cache`announced
    ensures cache.Valid()
    ensures cache.templates
         == Learn(old(cache.templates), scope, ParseSet(body, 0, options), now, Ttl(cache.ttl), Max(cache.max))
    ensures cache.announced == LearnAll(old(cache.announced), scope, ParseSet(body, 0, options), now)
  {
    var off := 0;
    while true
      invariant off <= |body| && cache.Valid()
      invariant Learn(cache.templates, scope, ParseSet(body, off, options), now, Ttl(cache.ttl), Max(cache.max))
             == Learn(old(cache.templates), scope, ParseSet(body, 0, options), now, Ttl(cache.ttl), Max(cache.max))
      invariant LearnAll(cache.announced, scope, ParseSet(body, off, options), now)
             == LearnAll(old(cache.announced), scope, ParseSet(body, 0, options), now)
      decreases |body| - off
    {
      var turn := ParseOne(body, off, options);
      match turn {
        case Stop =>
          return;
        case Skip(next) =>
          off := next;
        case Keep(news, next) =>
          off := next;
          assert ([news] + ParseSet(body, off, options))[1..] == ParseSet(body, off, options);
          cache.Put(KeyFor(scope, news.id), news.template, now);
      }
    }
  }

  method ParseOne(body: bytes, start: nat, options: bool) returns (turn: Turn)
    requires start <= |body|
    ensures turn == SetTurn(body, start, options)
  {
    var header := if options then 6 else 4;
    if start + header > |body| {
      return Stop;
    }
    var id := U16(body, start);
    var fieldCount: nat := U16(body, start + 2);
    var scopeCount: nat := 0;
    if options {
      scopeCount := U16(body, start + 4);
    }
    var off := start + header;
    // A withdrawal: nothing to store.
    if fieldCount == 0 {
      return Skip(off);
    }
    if options && (scopeCount == 0 || scopeCount > fieldCount) {
      return Stop;
    }
    var ok, fields, bad, next := ReadTemplate(body, off, fieldCount);
    if !ok {
      return Stop;
    }
    if !HasVariable(fields) {
      FixedWidthIsWidth(fields);
    }
    var t: Template := Layout(fields, FixedWidth(fields), HasVariable(fields), scopeCount);
    if bad || (!t.hasVarLen && t.recordLen == 0) {
      return Skip(next);
    }
    return Keep(Announced(id, t), next);
  }

  /** The field loop: the layout's fields, and whether one of them has no width. */
  method ReadTemplate(body: bytes, start: nat, count: nat) returns (ok: bool, fields: seq<Field>, bad: bool, off: nat)
    requires start <= |body|
    ensures off <= |body|
    ensures ReadFields(body, start, count) == if ok then Some((fields, off)) else None
    ensures ok ==> bad == HasZeroWidth(fields)
  {
    ok, fields, bad, off := true, [], false, start;
    assert forall rest: seq<Field> :: fields + rest == rest;
    for i := 0 to count
      invariant ok && off <= |body|
      invariant bad == HasZeroWidth(fields)
      invariant ReadFields(body, start, count)
             == var rest := ReadFields(body, off, count - i);
                if rest.None? then None else Some((fields + rest.value.0, rest.value.1))
    {
      if off + 4 > |body| {
        ok := false;
        return;
      }
      ghost var at, before := off, fields;
      var raw := U16(body, off);
      var f := Field(raw % ENTERPRISE_BIT, U16(body, off + 2), 0);
      off := off + 4;
      if raw >= ENTERPRISE_BIT {
        if off + 4 > |body| {
          ok := false;
          return;
        }
        f := f.(enterprise := U32(body, off));
        off := off + 4;
      }
      assert ReadField(body, at) == Some((f, off));
      if f.length == 0 {
        bad := true;
      }
      fields := fields + [f];
      assert forall rest: seq<Field> :: before + ([f] + rest) == fields + rest;
      assert fields[..|before|] == before;
    }
    assert fields + [] == fields;
  }
}
