/** Reading the printers out of an IPP response, and writing IPP attributes (parse_printers and attr in
    adapters/client_connections.rs; sections 3.1 and 3.5.1 of RFC 8010). */
module Ipp {
  import opened Common
  import opened Bytes

  const END_TAG: byte := 0x03
  const PRINTER_TAG: byte := 0x04
  const HEADER: nat := 8

  /** `printer-name` in ASCII. */
  const PRINTER_NAME: bytes := [0x70, 0x72, 0x69, 0x6E, 0x74, 0x65, 0x72, 0x2D, 0x6E, 0x61, 0x6D, 0x65]

  datatype ParseError = Incomplete | Rejected | Malformed

  // ---------------------------------------------------------------- the format

  datatype Item = Delimiter(tag: byte) | Attribute(tag: byte, name: bytes, value: bytes)

  predicate IsDelimiter(tag: byte) {
    0x01 <= tag <= 0x05 && tag != END_TAG
  }

  /** An item the format can carry: lengths fit 16 bits and names are text. */
  predicate IsItem(item: Item) {
    match item
    case Delimiter(tag) => IsDelimiter(tag)
    case Attribute(tag, name, value) =>
      !(0x01 <= tag <= 0x05) && |name| < 0x1_0000 && |value| < 0x1_0000 && ValidUtf8(name)
  }

  ghost predicate AreItems(items: seq<Item>) {
    forall k :: 0 <= k < |items| ==> IsItem(items[k])
  }

  function Field(content: bytes): bytes {
    ToU16(|content|) + content
  }

  function EncodeItem(item: Item): (b: bytes)
    ensures b != [] && b[0] == item.tag
  {
    match item
    case Delimiter(tag) => [tag]
    case Attribute(tag, name, value) => [tag] + (Field(name) + Field(value))
  }

  function Encode(items: seq<Item>): bytes {
    if items == [] then [] else EncodeItem(items[0]) + Encode(items[1..])
  }

  // ---------------------------------------------------------------- the names a response lists

  /** Whether the items end inside a printer group. */
  function InPrinter(items: seq<Item>): bool {
    if items == [] then false
    else
      var last := items[|items| - 1];
      if last.Delimiter? then last.tag == 0x04 else InPrinter(items[..|items| - 1])
  }

  /** Item `k` is a printer's name. */
  predicate IsName(items: seq<Item>, k: nat)
    requires k < |items|
  {
    items[k].Attribute? && items[k].name == PRINTER_NAME && InPrinter(items[..k])
  }

  ghost predicate NamesAreText(items: seq<Item>) {
    forall k :: 0 <= k < |items| && IsName(items, k) ==> ValidUtf8(items[k].value)
  }

  /** The names collected after the items: each non-empty name when it is first seen. */
  function Names(items: seq<Item>): seq<bytes> {
    if items == [] then []
    else
      var n := |items| - 1;
      var before := Names(items[..n]);
      if IsName(items, n) && items[n].value != [] && items[n].value !in before then before + [items[n].value] else before
  }

  /** Item `k` names the printer `name`. */
  ghost predicate NamesAt(items: seq<Item>, k: int, name: bytes) {
    0 <= k < |items| && IsName(items, k) && items[k].value == name
  }

  lemma NamesAtGrows(items: seq<Item>, k: int, name: bytes)
    requires items != []
    ensures NamesAt(items, k, name)
            <==> NamesAt(items[..|items| - 1], k, name) || (k == |items| - 1 && NamesAt(items, k, name))
  {
    if 0 <= k < |items| - 1 {
      assert items[..|items| - 1][..k] == items[..k];
    }
  }

  /** The listed names are exactly the non-empty names of printers, each once. */
  lemma {:induction false} NamesAreThePrinters(items: seq<Item>)
    ensures forall name :: name in Names(items) <==> name != [] && exists k :: NamesAt(items, k, name)
    ensures forall i, j :: 0 <= i < j < |Names(items)| ==> Names(items)[i] != Names(items)[j]
    decreases |items|
  {
    if items != [] {
      var init, n := items[..|items| - 1], |items| - 1;
      NamesAreThePrinters(init);
      forall name ensures name in Names(items) <==> name != [] && exists k :: NamesAt(items, k, name) {
        forall k ensures NamesAt(items, k, name) <==> NamesAt(init, k, name) || (k == n && NamesAt(items, k, name)) {
          NamesAtGrows(items, k, name);
        }
        if name in Names(init) {
          var k :| NamesAt(init, k, name);
          assert NamesAt(items, k, name);
        } else if name in Names(items) {
          assert NamesAt(items, n, name);
        }
        if name != [] && exists k :: NamesAt(items, k, name) {
          var k :| NamesAt(items, k, name);
          if k != n {
            assert NamesAt(init, k, name);
          }
        }
      }
    }
  }

  /** They are listed in the order in which each is first named. */
  lemma {:induction false} NamesInFirstOrder(items: seq<Item>, i: nat, j: nat)
    requires i < j < |Names(items)|
    ensures exists k :: NamesAt(items, k, Names(items)[i]) && forall l :: l <= k ==> !NamesAt(items, l, Names(items)[j])
    decreases |items|
  {
    var init, n := items[..|items| - 1], |items| - 1;
    var first, second := Names(items)[i], Names(items)[j];
    NamesAreThePrinters(init);
    forall k, name ensures NamesAt(items, k, name) <==> NamesAt(init, k, name) || (k == n && NamesAt(items, k, name)) {
      NamesAtGrows(items, k, name);
    }
    if j < |Names(init)| {
      NamesInFirstOrder(init, i, j);
      var k :| NamesAt(init, k, first) && forall l :: l <= k ==> !NamesAt(init, l, second);
      assert NamesAt(items, k, first);
    } else {
      assert first in Names(init);
      var k :| NamesAt(init, k, first);
      assert NamesAt(items, k, first);
      assert second !in Names(init);
    }
  }

  // ---------------------------------------------------------------- reading

  function ReadField(b: bytes): Option<(bytes, bytes)> {
    if |b| < 2 then None
    else
      var n := U16(b[0], b[1]);
      if |b| < 2 + n then None else Some((b[2..2 + n], b[2 + n..]))
  }

  /** One item and what follows it. */
  function ReadItem(b: bytes): (r: Option<(Item, bytes)>)
    requires b != [] && b[0] != END_TAG
    ensures r.Some? ==> |r.value.1| < |b|
  {
    if 0x01 <= b[0] <= 0x05 then Some((Delimiter(b[0]), b[1..]))
    else
      match ReadField(b[1..])
      case None => None
      case Some((name, rest)) =>
        if !ValidUtf8(name) then None
        else
          match ReadField(rest)
          case None => None
          case Some((value, rest)) => Some((Attribute(b[0], name, value), rest))
  }

  /** The items up to the end tag and what follows it. */
  function ReadItems(b: bytes): Option<(seq<Item>, bytes)>
    decreases |b|
  {
    if b == [] then None
    else if b[0] == END_TAG then Some(([], b[1..]))
    else
      match ReadItem(b)
      case None => None
      case Some((item, rest)) =>
        match ReadItems(rest)
        case None => None
        case Some((items, after)) => Some(([item] + items, after))
  }

  /** The meaning of what follows the header. */
  ghost function Meaning(body: bytes): Result<seq<bytes>, ParseError> {
    match ReadItems(body)
    case None => Err(Malformed)
    case Some((items, _)) => if NamesAreText(items) then Ok(Names(items)) else Err(Malformed)
  }

  ghost function Parsed(b: bytes): Result<seq<bytes>, ParseError> {
    if |b| < HEADER + 1 then Err(Incomplete)
    else if Status(b) != 0 then Err(Rejected)
    else Meaning(b[HEADER..])
  }

  /** Where the loop stands: `items` are behind it, `rest` is ahead. */
  ghost predicate Reading(body: bytes, items: seq<Item>, rest: bytes, inPrinter: bool, names: seq<bytes>) {
    && inPrinter == InPrinter(items) && names == Names(items) && NamesAreText(items)
    && ReadItems(body) == match ReadItems(rest)
                          case None => None
                          case Some((more, after)) => Some((items + more, after))
  }

  lemma NothingRead(body: bytes)
    ensures Reading(body, [], body, false, [])
  {
    if ReadItems(body).Some? {
      assert [] + ReadItems(body).value.0 == ReadItems(body).value.0;
    }
  }

  lemma Stops(body: bytes, items: seq<Item>, rest: bytes, inPrinter: bool, names: seq<bytes>)
    requires Reading(body, items, rest, inPrinter, names)
    requires rest == [] || rest[0] == END_TAG || ReadItem(rest).None?
    ensures Meaning(body) == if rest != [] && rest[0] == END_TAG then Ok(names) else Err(Malformed)
  {
    assert items + [] == items;
  }

  lemma DelimiterRead(body: bytes, items: seq<Item>, rest: bytes, inPrinter: bool, names: seq<bytes>)
    requires Reading(body, items, rest, inPrinter, names) && rest != [] && IsDelimiter(rest[0])
    ensures Reading(body, items + [Delimiter(rest[0])], rest[1..], rest[0] == PRINTER_TAG, names)
  {
    NextItem(items, Delimiter(rest[0]));
    ItemBehind(items, Delimiter(rest[0]), rest[1..]);
  }

  lemma AttributeRead(body: bytes, items: seq<Item>, rest: bytes, inPrinter: bool, names: seq<bytes>,
                      item: Item, after: bytes)
    requires Reading(body, items, rest, inPrinter, names)
    requires rest != [] && rest[0] != END_TAG && ReadItem(rest) == Some((item, after)) && item.Attribute?
    ensures var listed := inPrinter && item.name == PRINTER_NAME;
      if listed && !ValidUtf8(item.value) then Meaning(body) == Err(Malformed)
      else Reading(body, items + [item], after, inPrinter,
                   if listed && item.value != [] && item.value !in names then names + [item.value] else names)
  {
    NextItem(items, item);
    ItemBehind(items, item, after);
    if inPrinter && item.name == PRINTER_NAME && !ValidUtf8(item.value) && ReadItems(after).Some? {
      NotText(items, item, ReadItems(after).value.0);
    }
  }

  lemma ItemBehind(items: seq<Item>, item: Item, after: bytes)
    ensures ReadItems(after).Some?
            ==> items + ([item] + ReadItems(after).value.0) == items + [item] + ReadItems(after).value.0
  {
  }

  lemma NextItem(items: seq<Item>, item: Item)
    ensures InPrinter(items + [item]) == if item.Delimiter? then item.tag == PRINTER_TAG else InPrinter(items)
    ensures IsName(items + [item], |items|) <==> item.Attribute? && item.name == PRINTER_NAME && InPrinter(items)
    ensures Names(items + [item]) == if IsName(items + [item], |items|) && item.value != [] && item.value !in Names(items)
                                     then Names(items) + [item.value] else Names(items)
    ensures NamesAreText(items) && (IsName(items + [item], |items|) ==> ValidUtf8(item.value)) ==> NamesAreText(items + [item])
  {
    var all := items + [item];
    assert all[..|items|] == items;
    forall k: nat | 0 <= k < |items| ensures IsName(all, k) == IsName(items, k) {
      assert all[..k] == items[..k];
    }
  }

  /** A name that is not text spoils everything that follows it. */
  lemma NotText(items: seq<Item>, item: Item, more: seq<Item>)
    requires IsName(items + [item], |items|) && !ValidUtf8(item.value)
    ensures !NamesAreText(items + [item] + more)
  {
    var all := items + [item] + more;
    assert all[..|items|] == items && (items + [item])[..|items|] == items;
    assert IsName(all, |items|);
  }

  /** Where the length-prefixed field at a position ends. */
  function FieldEnd(b: bytes, pos: nat): (end: Option<nat>)
    ensures end.Some? ==> pos + 2 <= end.value <= |b|
  {
    if pos + 2 > |b| then None
    else
      var end := pos + 2 + U16(b[pos], b[pos + 1]);
      if end > |b| then None else Some(end)
  }

  lemma FieldAt(b: bytes, pos: nat)
    requires pos <= |b|
    ensures ReadField(b[pos..]) == match FieldEnd(b, pos)
                                   case None => None
                                   case Some(end) => Some((b[pos + 2..end], b[end..]))
  {
    var end := FieldEnd(b, pos);
    if end.Some? {
      assert b[pos..][2..end.value - pos] == b[pos + 2..end.value];
      assert b[pos..][end.value - pos..] == b[end.value..];
    }
  }

  /** An attribute read at a position, and the position after it. */
  function AttributeAt(b: bytes, pos: nat): (r: Option<(Item, nat)>)
    requires pos < |b|
    ensures r.Some? ==> r.value.0.Attribute? && pos < r.value.1 <= |b|
  {
    match FieldEnd(b, pos + 1)
    case None => None
    case Some(name) =>
      if !ValidUtf8(b[pos + 3..name]) then None
      else
        match FieldEnd(b, name)
        case None => None
        case Some(value) => Some((Attribute(b[pos], b[pos + 3..name], b[name + 2..value]), value))
  }

  lemma ItemAt(b: bytes, pos: nat)
    requires pos < |b| && !(0x01 <= b[pos] <= 0x05)
    ensures ReadItem(b[pos..]) == match AttributeAt(b, pos)
                                  case None => None
                                  case Some((item, next)) => Some((item, b[next..]))
  {
    assert b[pos..][1..] == b[pos + 1..];
    FieldAt(b, pos + 1);
    if FieldEnd(b, pos + 1).Some? {
      FieldAt(b, FieldEnd(b, pos + 1).value);
    }
  }

  /** The names as the loop collects them from a position on. */
  function Walk(b: bytes, pos: nat, inPrinter: bool, names: seq<bytes>): Result<seq<bytes>, ParseError>
    requires pos <= |b|
    decreases |b| - pos
  {
    if pos == |b| then Err(Malformed)
    else if b[pos] == END_TAG then Ok(names)
    else if 0x01 <= b[pos] <= 0x05 then Walk(b, pos + 1, b[pos] == PRINTER_TAG, names)
    else
      match AttributeAt(b, pos)
      case None => Err(Malformed)
      case Some((item, next)) =>
        if !(inPrinter && item.name == PRINTER_NAME) then Walk(b, next, inPrinter, names)
        else if !ValidUtf8(item.value) then Err(Malformed)
        else Walk(b, next, inPrinter, Listed(names, item.value))
  }

  function Listed(names: seq<bytes>, name: bytes): seq<bytes> {
    if name != [] && name !in names then names + [name] else names
  }

  /** The loop's result is the meaning of the items it walks over. */
  lemma {:induction false} WalkMeans(b: bytes, body: bytes, items: seq<Item>, pos: nat, inPrinter: bool, names: seq<bytes>)
    requires pos <= |b| && Reading(body, items, b[pos..], inPrinter, names)
    ensures Walk(b, pos, inPrinter, names) == Meaning(body)
    decreases |b| - pos
  {
    var rest := b[pos..];
    if rest == [] || rest[0] == END_TAG {
      Stops(body, items, rest, inPrinter, names);
    } else if 0x01 <= rest[0] <= 0x05 {
      DelimiterRead(body, items, rest, inPrinter, names);
      assert rest[1..] == b[pos + 1..];
      WalkMeans(b, body, items + [Delimiter(rest[0])], pos + 1, rest[0] == PRINTER_TAG, names);
    } else {
      ItemAt(b, pos);
      var read := AttributeAt(b, pos);
      if read.None? {
        Stops(body, items, rest, inPrinter, names);
      } else {
        var item, next := read.value.0, read.value.1;
        AttributeRead(body, items, rest, inPrinter, names, item, b[next..]);
        if !(inPrinter && item.name == PRINTER_NAME) {
          WalkMeans(b, body, items + [item], next, inPrinter, names);
        } else if ValidUtf8(item.value) {
          WalkMeans(b, body, items + [item], next, inPrinter, Listed(names, item.value));
        }
      }
    }
  }

  /** Reads the names of the printers, keeping positions into the bytes. */
  method ParsePrinters(b: bytes) returns (r: Result<seq<bytes>, ParseError>)
    ensures r == Parsed(b)
  {
    if |b| < HEADER + 1 {
      return Err(Incomplete);
    }
    if Status(b) != 0 {
      return Err(Rejected);
    }
    NothingRead(b[HEADER..]);
    WalkMeans(b, b[HEADER..], [], HEADER, false, []);
    r := ParseItems(b);
  }

  /** The loop over the items. */
  method ParseItems(b: bytes) returns (r: Result<seq<bytes>, ParseError>)
    requires |b| > HEADER
    ensures r == Walk(b, HEADER, false, [])
  {
    var pos := HEADER;
    var names: seq<bytes> := [];
    var inPrinter, ended := false, false;
    while pos < |b| && !ended
      invariant HEADER <= pos <= |b|
      invariant Walk(b, HEADER, false, []) == if ended then Ok(names) else Walk(b, pos, inPrinter, names)
      decreases |b| - pos, if ended then 0 else 1
    {
      var tag := b[pos];
      if tag == END_TAG {
        pos := pos + 1;
        ended := true;
      } else if 0x01 <= tag <= 0x05 {
        pos := pos + 1;
        inPrinter := tag == PRINTER_TAG;
      } else {
        var read := AttributeAt(b, pos);
        if read.None? {
          return Err(Malformed);
        }
        pos := read.value.1;
        if inPrinter && read.value.0.name == PRINTER_NAME {
          if !ValidUtf8(read.value.0.value) {
            return Err(Malformed);
          }
          names := Listed(names, read.value.0.value);
        }
      }
    }
    if !ended {
      return Err(Malformed);
    }
    return Ok(names);
  }

  // ---------------------------------------------------------------- reading inverts writing

  lemma FieldReads(content: bytes, rest: bytes)
    requires |content| < 0x1_0000
    ensures ReadField(Field(content) + rest) == Some((content, rest))
  {
    Parts(ToU16(|content|), content, rest);
  }

  lemma Parts(head: bytes, content: bytes, rest: bytes)
    requires |head| == 2
    ensures var b := head + content + rest;
      && |b| >= 2 + |content| && b[0] == head[0] && b[1] == head[1]
      && b[2..2 + |content|] == content && b[2 + |content|..] == rest
  {
  }

  lemma FieldWritten(b: bytes)
    requires ReadField(b).Some?
    ensures var (content, rest) := ReadField(b).value; |content| < 0x1_0000 && b == Field(content) + rest
  {
    var n := U16(b[0], b[1]);
    assert ToU16(n) == b[..2];
    assert b == b[..2] + b[2..2 + n] + b[2 + n..];
  }

  lemma AttributeLayout(tag: byte, name: bytes, value: bytes, rest: bytes)
    ensures var b := EncodeItem(Attribute(tag, name, value)) + rest;
      b[0] == tag && b[1..] == Field(name) + (Field(value) + rest)
  {
    var fields := Field(name) + Field(value);
    assert ([tag] + fields + rest)[1..] == fields + rest;
    Regroup(Field(name), Field(value), rest);
  }

  lemma ItemReads(item: Item, rest: bytes)
    requires IsItem(item)
    ensures EncodeItem(item)[0] != END_TAG && ReadItem(EncodeItem(item) + rest) == Some((item, rest))
  {
    if item.Attribute? {
      AttributeLayout(item.tag, item.name, item.value, rest);
      FieldReads(item.name, Field(item.value) + rest);
      FieldReads(item.value, rest);
    } else {
      assert ([item.tag] + rest)[1..] == rest;
    }
  }

  lemma ItemWritten(b: bytes)
    requires b != [] && b[0] != END_TAG && ReadItem(b).Some?
    ensures IsItem(ReadItem(b).value.0) && b == EncodeItem(ReadItem(b).value.0) + ReadItem(b).value.1
  {
    var (item, rest) := ReadItem(b).value;
    FirstAndRest(b);
    if item.Attribute? {
      FieldWritten(b[1..]);
      FieldWritten(ReadField(b[1..]).value.1);
      Regroup(Field(item.name), Field(item.value), rest);
      Regroup([b[0]], Field(item.name) + Field(item.value), rest);
    }
  }

  lemma FirstAndRest(b: bytes)
    requires b != []
    ensures b == [b[0]] + b[1..]
  {
  }

  /** Whatever was read is the encoding of what was read. */
  lemma {:induction false} ItemsWritten(b: bytes)
    requires ReadItems(b).Some?
    ensures AreItems(ReadItems(b).value.0) && b == Encode(ReadItems(b).value.0) + ([END_TAG] + ReadItems(b).value.1)
    decreases |b|
  {
    if b[0] != END_TAG {
      ItemWritten(b);
      var (item, after) := ReadItem(b).value;
      var (items, rest) := ReadItems(after).value;
      ItemsWritten(after);
      EncodeCons(item, items, [END_TAG] + rest);
    } else {
      FirstAndRest(b);
      assert [] + ([END_TAG] + b[1..]) == b;
    }
  }

  lemma EncodeCons(item: Item, items: seq<Item>, rest: bytes)
    ensures EncodeItem(item) + (Encode(items) + rest) == Encode([item] + items) + rest
    ensures IsItem(item) && AreItems(items) ==> AreItems([item] + items)
  {
    assert ([item] + items)[1..] == items;
    Regroup(EncodeItem(item), Encode(items), rest);
  }

  /** Every encoding is read back. */
  lemma {:induction false} ItemsRead(items: seq<Item>, rest: bytes)
    requires AreItems(items)
    ensures ReadItems(Encode(items) + ([END_TAG] + rest)) == Some((items, rest))
    decreases |items|
  {
    var end := [END_TAG] + rest;
    if items == [] {
      assert Encode(items) + end == end && end[1..] == rest;
    } else {
      var after := Encode(items[1..]) + end;
      assert items == [items[0]] + items[1..];
      EncodeCons(items[0], items[1..], end);
      ItemReads(items[0], after);
      ItemsRead(items[1..], rest);
    }
  }

  /** Reading succeeds exactly on encodings, and gives back the items and everything after them. */
  lemma ReadItemsExactly(b: bytes, items: seq<Item>, rest: bytes)
    ensures ReadItems(b) == Some((items, rest)) <==> AreItems(items) && b == Encode(items) + ([END_TAG] + rest)
  {
    if ReadItems(b).Some? {
      ItemsWritten(b);
    }
    if AreItems(items) {
      ItemsRead(items, rest);
    }
  }

  /** The status code in a response's header. */
  function Status(b: bytes): nat
    requires |b| >= 4
  {
    U16(b[2], b[3])
  }

  /** A successful response: a header with status zero, the items, the end tag, and perhaps more. */
  ghost predicate Responds(b: bytes, items: seq<Item>, trailing: bytes) {
    && |b| > 8 && Status(b) == 0
    && AreItems(items)
    && b[8..] == Encode(items) + ([0x03] + trailing)
  }

  /** A response is exactly what the three steps of the parser let through. */
  lemma RespondsExactly(b: bytes, items: seq<Item>, trailing: bytes)
    ensures Responds(b, items, trailing)
            <==> |b| > HEADER && Status(b) == 0 && ReadItems(b[HEADER..]) == Some((items, trailing))
  {
    if |b| > HEADER {
      ReadItemsExactly(b[HEADER..], items, trailing);
    }
  }

  /** The status is zero when both of its bytes, the third and the fourth, are. */
  lemma StatusIsZero(b: bytes)
    requires |b| >= 4
    ensures Status(b) == 0 <==> b[2] == 0 && b[3] == 0
  {
  }

  /** The parser accepts exactly the successful responses whose printer names are text, and returns
      their names, whatever follows the end tag. */
  lemma ParsedExactly(b: bytes, names: seq<bytes>)
    ensures Parsed(b) == Ok(names)
            <==> exists items, trailing :: Responds(b, items, trailing) && NamesAreText(items) && names == Names(items)
  {
    if Parsed(b) == Ok(names) {
      var read := ReadItems(b[HEADER..]).value;
      RespondsExactly(b, read.0, read.1);
    }
    if items, trailing :| Responds(b, items, trailing) && NamesAreText(items) && names == Names(items) {
      RespondsExactly(b, items, trailing);
    }
  }

  /** A response cut short anywhere before its end tag is refused. */
  lemma PrefixRejected(b: bytes, items: seq<Item>, n: nat)
    requires Responds(b, items, []) && n < |b|
    ensures Parsed(b[..n]).Err?
  {
    RespondsExactly(b, items, []);
    if n > HEADER {
      assert b[HEADER..] == b[HEADER..n] + b[n..];
      assert b[..n][HEADER..] == b[HEADER..n];
      NothingLeftOver(b[HEADER..n], b[n..], items);
    }
  }

  /** Whatever follows the end tag: a response that was cut is accepted exactly when the end tag is
      still there, and then it lists the same printers. */
  lemma CutExactly(b: bytes, items: seq<Item>, trailing: bytes, n: nat)
    requires Responds(b, items, trailing) && n <= |b|
    ensures Parsed(b[..n]).Ok? <==> n >= |b| - |trailing| && NamesAreText(items)
    ensures Parsed(b[..n]).Ok? ==> Parsed(b[..n]) == Ok(Names(items))
  {
    var end := |b| - |trailing|;
    EndIsInside(b, items, trailing);
    if n < end {
      assert b[..end][..n] == b[..n];
      PrefixRejected(b[..end], items, n);
    } else {
      CutKeepsEnd(b, items, trailing, n);
      RespondsExactly(b[..n], items, trailing[..n - end]);
    }
  }

  lemma EndIsInside(b: bytes, items: seq<Item>, trailing: bytes)
    requires Responds(b, items, trailing)
    ensures |b| - |trailing| > HEADER && Responds(b[..|b| - |trailing|], items, [])
  {
    Regroup(Encode(items), [END_TAG], trailing);
    CutKeepsEnd(b, items, trailing, |b| - |trailing|);
    assert trailing[..0] == [];
  }

  lemma CutKeepsEnd(b: bytes, items: seq<Item>, trailing: bytes, n: nat)
    requires Responds(b, items, trailing) && |b| - |trailing| <= n <= |b|
    ensures Responds(b[..n], items, trailing[..n - (|b| - |trailing|)])
  {
    var end := |b| - |trailing|;
    var body := Encode(items) + [END_TAG];
    Regroup(Encode(items), [END_TAG], trailing);
    assert |b| == HEADER + |body| + |trailing|;
    assert b[..n][HEADER..] == b[HEADER..][..n - HEADER];
    PrefixOfJoin(body, trailing, n - HEADER);
    Regroup(Encode(items), [END_TAG], trailing[..n - end]);
    assert trailing[..0] == [] && body + [] == body;
  }

  lemma NothingLeftOver(cut: bytes, more: bytes, items: seq<Item>)
    requires ReadItems(cut + more) == Some((items, [])) && more != []
    ensures ReadItems(cut).None?
  {
    if ReadItems(cut).Some? {
      Extended(cut, more);
    }
  }

  /** More bytes after the end tag change nothing but what is left over. */
  lemma Extended(b: bytes, more: bytes)
    requires ReadItems(b).Some?
    ensures ReadItems(b + more) == Some((ReadItems(b).value.0, ReadItems(b).value.1 + more))
  {
    var (items, rest) := ReadItems(b).value;
    ItemsWritten(b);
    ItemsRead(items, rest + more);
    Regroup(Encode(items), [END_TAG] + rest, more);
    Regroup([END_TAG], rest, more);
  }

  // ---------------------------------------------------------------- writing attributes

  /** Appends one attribute; the lengths are cut to 16 bits as the source's casts do. */
  function Attr(out: bytes, tag: byte, name: bytes, value: bytes): bytes {
    out + [tag] + ToU16(|name|) + name + ToU16(|value|) + value
  }

  /** An item reads back as itself exactly when the format can carry it: for attributes that are not
      delimiters, when both lengths fit 16 bits and the name is text. */
  lemma ItemReadsExactly(item: Item, rest: bytes)
    requires EncodeItem(item)[0] != END_TAG
    ensures ReadItem(EncodeItem(item) + rest) == Some((item, rest)) <==> IsItem(item)
  {
    var b := EncodeItem(item) + rest;
    if IsItem(item) {
      ItemReads(item, rest);
    }
    if ReadItem(b).Some? {
      ItemWritten(b);
    }
  }

  /** The source's writer appends exactly the encoding of the attribute. */
  lemma AttrWrites(out: bytes, tag: byte, name: bytes, value: bytes)
    ensures Attr(out, tag, name, value) == out + EncodeItem(Attribute(tag, name, value))
  {
    Regroup(out + [tag], ToU16(|name|), name);
    Regroup(out + [tag] + Field(name), ToU16(|value|), value);
    Regroup(out + [tag], Field(name), Field(value));
    Regroup(out, [tag], Field(name) + Field(value));
  }
}
