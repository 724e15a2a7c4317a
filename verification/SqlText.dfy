/**
 The array lists in the statement that Save prints: every item wrapped into a dollar-quoted constant, the constants
 joined by commas; and the reader of such a list, after section 4.1.2.4 of the PostgreSQL manual: a constant
 opened by a tag ends at the next occurrence of the tag.
 */
module SqlText {
  import opened Wrappers
  import opened Text
  import opened Events
  import opened AppendProtocol
  import opened PgEventStore

  const TAG := "$Q$"

  function Wrap(s: string): string {
    TAG + s + TAG
  }

  function WrapAll(items: seq<string>): (ws: seq<string>)
    ensures |ws| == |items|
  {
    seq(|items|, i requires 0 <= i < |items| => Wrap(items[i]))
  }

  function PrintList(items: seq<string>): string {
    Joined(WrapAll(items), ",")
  }

  /** A constant at the beginning of the text, and what follows it. */
  function ReadConstant(text: string): (r: Option<(string, string)>)
    ensures r.Some? ==> |r.value.1| < |text|
  {
    if !(TAG <= text) then None
    else
      var body := text[|TAG|..];
      match Find(body, TAG, 0)
      case None => None
      case Some(i) => Some((body[..i], body[i + |TAG|..]))
  }

  /** A list of constants, as far as commas go on, and what follows it. */
  function ReadItems(text: string): (r: Option<(seq<string>, string)>)
    decreases |text|
  {
    match ReadConstant(text)
    case None => None
    case Some((item, rest)) =>
      if rest == "" || rest[0] != ',' then Some(([item], rest))
      else
        match ReadItems(rest[1..])
        case None => None
        case Some((items, more)) => Some(([item] + items, more))
  }

  /** The item holds nothing that the reader takes for its end. */
  predicate Quotable(s: string) {
    EndsAtFirst(s, TAG)
  }

  predicate AllQuotable(items: seq<string>) {
    forall k :: 0 <= k < |items| ==> Quotable(items[k])
  }

  /** join's skipped delimiters never show: a wrapped item is not empty. */
  lemma PrintListIsGlue(items: seq<string>)
    ensures PrintList(items) == Glue(WrapAll(items), ",")
  {
    JoinedDropsLeadingEmpty(WrapAll(items), ",");
  }

  /** What the reader finds at the beginning of a wrapped item. */
  lemma ReadWrapped(s: string, rest: string)
    ensures ReadConstant(Wrap(s) + rest).Some?
    ensures Quotable(s) ==> ReadConstant(Wrap(s) + rest) == Some((s, rest))
    ensures !Quotable(s) ==> ReadConstant(Wrap(s) + rest).value.0 != s
  {
    var body := s + TAG + rest;
    assert (Wrap(s) + rest)[|TAG|..] == body;
    assert TAG <= Wrap(s) + rest;
    assert body[|s|..|s| + |TAG|] == TAG;
    assert Occurs(body, TAG, |s|);
    FindInPrefix(s, TAG, rest);
    assert body[..|s|] == s && body[|s| + |TAG|..] == rest;
  }

  lemma GlueStep(ps: seq<string>, sep: string)
    requires |ps| > 1
    ensures Glue(ps, sep) == ps[0] + (sep + Glue(ps[1..], sep))
  {
  }

  lemma PrintListStep(items: seq<string>)
    requires items != []
    ensures PrintList(items) == Wrap(items[0]) + Tail(items)
  {
    var ws := WrapAll(items);
    PrintListIsGlue(items);
    if |items| > 1 {
      PrintListIsGlue(items[1..]);
      GlueStep(ws, ",");
      assert ws[1..] == WrapAll(items[1..]);
    } else {
      assert Wrap(items[0]) + "" == Wrap(items[0]);
    }
  }

  function Tail(items: seq<string>): string
    requires items != []
  {
    if |items| == 1 then "" else "," + PrintList(items[1..])
  }

  /** An item ending in the tag without its last character is not quotable: the tag closes too early. */
  lemma HalfTagIsNotQuotable(s: string)
    ensures !Quotable(s + "$Q")
  {
    var text := s + "$Q" + TAG;
    assert text[|s|..|s| + 3] == TAG;
    assert Occurs(text, TAG, |s|);
  }

  /** An item without dollar signs, such as the text of an id, is quotable. */
  lemma DollarFreeIsQuotable(s: string)
    requires '$' !in s
    ensures Quotable(s)
  {
    var text := s + TAG;
    assert text[|s|..] == TAG;
    forall j | 0 <= j < |s| ensures !Occurs(text, TAG, j) {
      assert text[j..j + 3][0] == s[j];
    }
    FindIsAt(text, TAG, |s|);
  }

  lemma ReadHead(text: string, item: string, rest: string)
    requires ReadConstant(text) == Some((item, rest))
    ensures rest == "" || rest[0] != ',' ==> ReadItems(text) == Some(([item], rest))
    ensures rest != "" && rest[0] == ',' ==>
      ReadItems(text) == if ReadItems(rest[1..]).None? then None
                         else Some(([item] + ReadItems(rest[1..]).value.0, ReadItems(rest[1..]).value.1))
  {
  }

  lemma ReadHeadDiffers(text: string, item: string)
    requires ReadConstant(text).Some? && ReadConstant(text).value.0 != item
    ensures ReadItems(text).Some? ==> ReadItems(text).value.0 != [] && ReadItems(text).value.0[0] != item
  {
  }

  lemma AllQuotableStep(items: seq<string>)
    requires items != []
    ensures AllQuotable(items) <==> Quotable(items[0]) && AllQuotable(items[1..])
  {
    assert items == [items[0]] + items[1..];
  }

  /** What the reader makes of a printed list in front of anything but a comma. */
  ghost predicate ReadAs(r: Option<(seq<string>, string)>, items: seq<string>, tail: string) {
    && (AllQuotable(items) ==> r == Some((items, tail)))
    && (!AllQuotable(items) && r.Some? ==> r.value.0 != items)
  }

  lemma ReadAsLonger(items: seq<string>, tail: string, r: Option<(seq<string>, string)>)
    requires |items| > 1 && Quotable(items[0]) && ReadAs(r, items[1..], tail)
    ensures ReadAs(if r.None? then None else Some(([items[0]] + r.value.0, r.value.1)), items, tail)
  {
    AllQuotableStep(items);
    assert items == [items[0]] + items[1..];
    if r.Some? && [items[0]] + r.value.0 == items {
      assert ([items[0]] + r.value.0)[1..] == r.value.0;
    }
  }

  lemma InTurn(a: string, b: string, c: string)
    ensures (a + b) + c == a + (b + c)
  {
  }

  lemma CommaFirst(more: string)
    ensures ("," + more)[0] == ',' && ("," + more)[1..] == more
  {
  }

  lemma FirstPrinted(items: seq<string>, tail: string)
    requires items != []
    ensures PrintList(items) + tail == Wrap(items[0]) + (Tail(items) + tail)
    ensures |items| > 1 ==> Tail(items) + tail == "," + (PrintList(items[1..]) + tail)
    ensures |items| == 1 ==> Tail(items) + tail == tail
  {
    PrintListStep(items);
    InTurn(Wrap(items[0]), Tail(items), tail);
    if |items| > 1 {
      InTurn(",", PrintList(items[1..]), tail);
    }
  }

  /** Reading a printed list in its context gives exactly the items, and the context, if every item is quotable, and
      never the items if one of them is not. */
  lemma {:induction false} ReadPrintedItems(items: seq<string>, tail: string)
    requires items != [] && (tail == "" || tail[0] != ',')
    ensures ReadAs(ReadItems(PrintList(items) + tail), items, tail)
  {
    var text, rest := PrintList(items) + tail, Tail(items) + tail;
    FirstPrinted(items, tail);
    ReadWrapped(items[0], rest);
    if !Quotable(items[0]) {
      ReadHeadDiffers(text, items[0]);
    } else {
      ReadHead(text, items[0], rest);
      if |items| > 1 {
        CommaFirst(PrintList(items[1..]) + tail);
        ReadPrintedItems(items[1..], tail);
        ReadAsLonger(items, tail, ReadItems(PrintList(items[1..]) + tail));
      } else {
        assert items == [items[0]];
      }
    }
  }

  /** The database reads back exactly the printed items if and only if every item is quotable. */
  lemma ReadPrintedIff(items: seq<string>)
    requires items != []
    ensures ReadItems(PrintList(items)) == Some((items, "")) <==> AllQuotable(items)
  {
    ReadPrintedItems(items, "");
    assert PrintList(items) + "" == PrintList(items);
  }

  // ---------------------------------------------------------------- the whole statement

  datatype Statement = Statement(stream: string, streamType: string, ids: seq<string>, types: seq<string>, bodies: seq<string>)

  predicate AllPrintable(s: Statement) {
    s.ids != [] && s.types != [] && s.bodies != []
  }

  /** What string_format prints around the constants and lists. */
  function Opening(schema: string): string {
    "\n          select " + schema + ".mt_append_event("
  }

  const BEFORE_TYPE := ", "
  const BEFORE_IDS := ", array["
  const BEFORE_TYPES := "]::uuid[], array["
  const BEFORE_BODIES := "]::varchar[], array["
  const CLOSING := "]::jsonb[])\n          "

  function PrintBodies(s: Statement): string {
    PrintList(s.bodies) + CLOSING
  }

  function PrintTypes(s: Statement): string {
    PrintList(s.types) + (BEFORE_BODIES + PrintBodies(s))
  }

  function PrintIds(s: Statement): string {
    PrintList(s.ids) + (BEFORE_TYPES + PrintTypes(s))
  }

  function PrintStreamType(s: Statement): string {
    Wrap(s.streamType) + (BEFORE_IDS + PrintIds(s))
  }

  function PrintStatement(schema: string, s: Statement): string {
    Opening(schema) + (Wrap(s.stream) + (BEFORE_TYPE + PrintStreamType(s)))
  }

  /** The text after an expected beginning. */
  function Expect(text: string, token: string): Option<string> {
    if token <= text then Some(text[|token|..]) else None
  }

  function ReadBodies(text: string): Option<seq<string>> {
    match ReadItems(text)
    case None => None
    case Some((bodies, rest)) => if rest == CLOSING then Some(bodies) else None
  }

  function ReadTypes(text: string): Option<(seq<string>, seq<string>)> {
    match ReadItems(text)
    case None => None
    case Some((types, rest)) =>
      match Expect(rest, BEFORE_BODIES)
      case None => None
      case Some(more) =>
        var bodies := ReadBodies(more);
        if bodies.None? then None else Some((types, bodies.value))
  }

  function ReadIds(text: string): Option<(seq<string>, seq<string>, seq<string>)> {
    match ReadItems(text)
    case None => None
    case Some((ids, rest)) =>
      match Expect(rest, BEFORE_TYPES)
      case None => None
      case Some(more) =>
        var r := ReadTypes(more);
        if r.None? then None else Some((ids, r.value.0, r.value.1))
  }

  function ReadStreamType(stream: string, text: string): Option<Statement> {
    match ReadConstant(text)
    case None => None
    case Some((streamType, rest)) =>
      match Expect(rest, BEFORE_IDS)
      case None => None
      case Some(more) =>
        var r := ReadIds(more);
        if r.None? then None else Some(Statement(stream, streamType, r.value.0, r.value.1, r.value.2))
  }

  function ReadStatement(schema: string, text: string): Option<Statement> {
    match Expect(text, Opening(schema))
    case None => None
    case Some(call) =>
      match ReadConstant(call)
      case None => None
      case Some((stream, rest)) =>
        match Expect(rest, BEFORE_TYPE)
        case None => None
        case Some(more) => ReadStreamType(stream, more)
  }

  lemma Expected(token: string, more: string)
    ensures Expect(token + more, token) == Some(more)
  {
  }

  lemma BodiesIff(s: Statement)
    requires AllPrintable(s)
    ensures ReadBodies(PrintBodies(s)) == Some(s.bodies) <==> AllQuotable(s.bodies)
  {
    ReadPrintedItems(s.bodies, CLOSING);
  }

  lemma TypesIff(s: Statement)
    requires AllPrintable(s)
    ensures ReadTypes(PrintTypes(s)) == Some((s.types, s.bodies)) <==> AllQuotable(s.types) && AllQuotable(s.bodies)
  {
    ReadPrintedItems(s.types, BEFORE_BODIES + PrintBodies(s));
    Expected(BEFORE_BODIES, PrintBodies(s));
    BodiesIff(s);
  }

  lemma IdsIff(s: Statement)
    requires AllPrintable(s)
    ensures ReadIds(PrintIds(s)) == Some((s.ids, s.types, s.bodies))
       <==> AllQuotable(s.ids) && AllQuotable(s.types) && AllQuotable(s.bodies)
  {
    ReadPrintedItems(s.ids, BEFORE_TYPES + PrintTypes(s));
    Expected(BEFORE_TYPES, PrintTypes(s));
    TypesIff(s);
  }

  lemma StreamTypeIff(s: Statement)
    requires AllPrintable(s)
    ensures ReadStreamType(s.stream, PrintStreamType(s)) == Some(s)
       <==> Quotable(s.streamType) && AllQuotable(s.ids) && AllQuotable(s.types) && AllQuotable(s.bodies)
  {
    ReadWrapped(s.streamType, BEFORE_IDS + PrintIds(s));
    Expected(BEFORE_IDS, PrintIds(s));
    IdsIff(s);
  }

  /** The whole statement is read back as what was printed if and only if every constant and item is quotable. */
  lemma StatementIff(schema: string, s: Statement)
    requires AllPrintable(s)
    ensures ReadStatement(schema, PrintStatement(schema, s)) == Some(s)
       <==> Quotable(s.stream) && Quotable(s.streamType) && AllQuotable(s.ids) && AllQuotable(s.types) && AllQuotable(s.bodies)
  {
    Expected(Opening(schema), Wrap(s.stream) + (BEFORE_TYPE + PrintStreamType(s)));
    ReadWrapped(s.stream, BEFORE_TYPE + PrintStreamType(s));
    Expected(BEFORE_TYPE, PrintStreamType(s));
    StreamTypeIff(s);
  }

  /** The statement Save prints for a call, with the texts of its event ids. */
  function StatementOf(c: Call, uuid: nat -> string): Statement {
    Statement(c.stream, c.streamType, seq(|c.ids|, i requires 0 <= i < |c.ids| => uuid(c.ids[i])), c.types, c.bodies)
  }

  /** The statement for a group has an id, the type and the body of each event in the group's order, and the database
      reads exactly this statement if and only if the stream and every type and body are quotable. */
  lemma StatementCarriesCall(schema: string, stream: string, group: seq<Event>, firstId: nat, uuid: nat -> string)
    requires group != [] && forall id :: '$' !in uuid(id)
    ensures var s := StatementOf(CallOf(stream, group, firstId), uuid);
      && |s.ids| == |s.types| == |s.bodies| == |group|
      && (forall i :: 0 <= i < |group| ==> s.types[i] == group[i].eventType && s.bodies[i] == group[i].data.text)
      && (ReadStatement(schema, PrintStatement(schema, s)) == Some(s)
          <==> Quotable(stream) && forall i :: 0 <= i < |group| ==> Quotable(group[i].eventType) && Quotable(group[i].data.text))
  {
    var s := StatementOf(CallOf(stream, group, firstId), uuid);
    StatementIff(schema, s);
    forall i | 0 <= i < |s.ids| ensures Quotable(s.ids[i]) {
      DollarFreeIsQuotable(s.ids[i]);
    }
    assert AllQuotable(s.types) ==> Quotable(s.types[0]);
    ListsQuotable(group);
  }

  lemma ListsQuotable(group: seq<Event>)
    ensures AllQuotable(Types(group)) && AllQuotable(Texts(group))
       <==> forall i :: 0 <= i < |group| ==> Quotable(group[i].eventType) && Quotable(group[i].data.text)
  {
    assert forall i :: 0 <= i < |group| ==> Types(group)[i] == group[i].eventType && Texts(group)[i] == group[i].data.text;
  }

  // ---------------------------------------------------------------- the printed text

  lemma FirstItemText(item: string)
    ensures PrintList([item]) == "$Q$" + item + "$Q$"
  {
    PrintListStep([item]);
  }

  lemma MoreItemsText(item: string, more: seq<string>)
    requires more != []
    ensures PrintList([item] + more) == "$Q$" + item + "$Q$" + "," + PrintList(more)
  {
    PrintListStep([item] + more);
    assert ([item] + more)[1..] == more;
    InTurn("$Q$" + item + "$Q$", ",", PrintList(more));
  }

  /** The statement as text: the call with the stream, the stream type, and the arrays of ids, types and bodies with
      their casts. */
  lemma StatementText(schema: string, s: Statement)
    ensures PrintStatement(schema, s) ==
            ("\n          select " + schema + ".mt_append_event(")
            + (("$Q$" + s.stream + "$Q$") + (", " + (("$Q$" + s.streamType + "$Q$")
            + (", array[" + (PrintList(s.ids)
            + ("]::uuid[], array[" + (PrintList(s.types)
            + ("]::varchar[], array[" + (PrintList(s.bodies)
            + "]::jsonb[])\n          ")))))))))
  {
  }

  /** For two events the lists are two constants each. */
  lemma PairText(a: string, b: string)
    ensures PrintList([a, b]) == "$Q$" + a + "$Q$" + "," + ("$Q$" + b + "$Q$")
  {
    MoreItemsText(a, [b]);
    FirstItemText(b);
    assert [a] + [b] == [a, b];
  }
}
