/**
 The framing of the two fetch protocols: a 64-bit count, then for each entry a
 64-bit id (log index or inbox rowid), a 32-bit length and the payload, all
 big-endian.  Both protocols use the same layout and the same caps.
 */
module Wire {
  import opened Wrappers

  newtype byte = x: int | 0 <= x < 256

  const TWO_64: nat := 0x1_0000_0000_0000_0000
  const TWO_32: nat := 0x1_0000_0000

  type u64 = x: nat | x < TWO_64

  const MAX_ENTRIES: nat := 1000
  const MAX_PAYLOAD: nat := 0x10_0000
  const MAX_AGGREGATE: nat := 0x200_0000

  datatype Item = Item(id: u64, payload: seq<byte>)

  datatype WireError = ShortRead | TooManyEntries | PayloadTooLarge | AggregateTooLarge

  // ------------------------------------------------------------ big-endian numbers

  function BigEndian(n: nat, width: nat): (bs: seq<byte>)
    ensures |bs| == width
  {
    if width == 0 then [] else BigEndian(n / 256, width - 1) + [(n % 256) as byte]
  }

  function Number(bs: seq<byte>): nat
  {
    if |bs| == 0 then 0 else Number(bs[..|bs| - 1]) * 256 + bs[|bs| - 1] as nat
  }

  function Pow256(w: nat): (p: nat)
    ensures p >= 1
  {
    if w == 0 then 1 else Pow256(w - 1) * 256
  }

  lemma PowWidths()
    ensures Pow256(4) == TWO_32 && Pow256(8) == TWO_64
  {
    assert Pow256(2) == 0x1_0000;
    assert Pow256(6) == 0x1_0000_0000_0000;
  }

  lemma {:induction false} NumberOfBigEndian(n: nat, width: nat)
    requires n < Pow256(width)
    ensures Number(BigEndian(n, width)) == n
  {
    if width > 0 {
      NumberOfBigEndian(n / 256, width - 1);
      var bs := BigEndian(n, width);
      assert bs[..|bs| - 1] == BigEndian(n / 256, width - 1);
    }
  }

  lemma {:induction false} BigEndianOfNumber(bs: seq<byte>)
    ensures Number(bs) < Pow256(|bs|)
    ensures BigEndian(Number(bs), |bs|) == bs
  {
    if |bs| > 0 {
      var front, last := bs[..|bs| - 1], bs[|bs| - 1];
      BigEndianOfNumber(front);
      NumberBelow(Number(front), last, Pow256(|front|));
      LastDigit(Number(front), |bs|, last);
      assert bs == front + [last];
    }
  }

  lemma NumberBelow(front: nat, last: byte, bound: nat)
    requires front < bound
    ensures front * 256 + last as nat < bound * 256
  {
  }

  lemma LastDigit(front: nat, width: nat, last: byte)
    requires width > 0
    ensures BigEndian(front * 256 + last as nat, width) == BigEndian(front, width - 1) + [last]
  {
    assert (front * 256 + last as nat) / 256 == front && (front * 256 + last as nat) % 256 == last as nat;
  }

  // ------------------------------------------------------------ pages

  function EncodeItem(item: Item): seq<byte>
  {
    BigEndian(item.id, 8) + BigEndian(|item.payload|, 4) + item.payload
  }

  function EncodeItems(items: seq<Item>): seq<byte>
  {
    if |items| == 0 then [] else EncodeItem(items[0]) + EncodeItems(items[1..])
  }

  function EncodePage(items: seq<Item>): seq<byte>
  {
    BigEndian(|items|, 8) + EncodeItems(items)
  }

  function Total(items: seq<Item>): nat
  {
    if |items| == 0 then 0 else |items[0].payload| + Total(items[1..])
  }

  /** What a client is willing to buffer from one page. */
  ghost predicate WithinCaps(items: seq<Item>)
  {
    && |items| <= MAX_ENTRIES
    && (forall i | 0 <= i < |items| :: |items[i].payload| <= MAX_PAYLOAD)
    && Total(items) <= MAX_AGGREGATE
  }

  /** Reads one entry off the front of `bs`, `aggregate` payload bytes having been read before. */
  function FirstItem(bs: seq<byte>, aggregate: nat): (r: Result<Item, WireError>)
    ensures r.Ok? ==> |bs| >= 12 + |r.value.payload|
  {
    if |bs| < 12 then Err(ShortRead)
    else
      var plen := Number(bs[8..12]);
      if plen > MAX_PAYLOAD then Err(PayloadTooLarge)
      else if aggregate + plen > MAX_AGGREGATE then Err(AggregateTooLarge)
      else if |bs| < 12 + plen then Err(ShortRead)
      else Ok(Item(Id(bs), bs[12..12 + plen]))
  }

  function AfterItem(bs: seq<byte>, item: Item): seq<byte>
    requires |bs| >= 12 + |item.payload|
  {
    bs[12 + |item.payload|..]
  }

  function Prepend(out: seq<Item>, r: Result<seq<Item>, WireError>): Result<seq<Item>, WireError>
  {
    match r
    case Err(e) => Err(e)
    case Ok(rest) => Ok(out + rest)
  }

  function DecodeItems(bs: seq<byte>, n: nat, aggregate: nat): Result<seq<Item>, WireError>
    decreases n
  {
    if n == 0 then Ok([])
    else
      match FirstItem(bs, aggregate)
      case Err(e) => Err(e)
      case Ok(item) => Prepend([item], DecodeItems(AfterItem(bs, item), n - 1, aggregate + |item.payload|))
  }

  function Id(bs: seq<byte>): u64
    requires |bs| >= 8
  {
    BigEndianOfNumber(bs[..8]);
    PowWidths();
    Number(bs[..8])
  }

  function DecodePage(bs: seq<byte>): Result<seq<Item>, WireError>
  {
    if |bs| < 8 then Err(ShortRead)
    else if Number(bs[..8]) > MAX_ENTRIES then Err(TooManyEntries)
    else DecodeItems(bs[8..], Number(bs[..8]), 0)
  }

  // ------------------------------------------------------------ exactness

  lemma ItemHeader(item: Item, tail: seq<byte>)
    requires |item.payload| <= MAX_PAYLOAD
    ensures var bs := EncodeItem(item) + tail;
            var plen := |item.payload|;
            && |bs| >= 12 + plen
            && Number(bs[8..12]) == plen
            && Item(Id(bs), bs[12..12 + plen]) == item && AfterItem(bs, item) == tail
  {
    var bs := EncodeItem(item) + tail;
    PowWidths();
    NumberOfBigEndian(item.id, 8);
    NumberOfBigEndian(|item.payload|, 4);
    assert bs[..8] == BigEndian(item.id, 8);
    assert bs[8..12] == BigEndian(|item.payload|, 4);
  }

  lemma {:induction false} DecodeNext(item: Item, after: seq<byte>, n: nat, aggregate: nat, rest: seq<Item>)
    requires n > 0 && |item.payload| <= MAX_PAYLOAD && aggregate + |item.payload| <= MAX_AGGREGATE
    requires DecodeItems(after, n - 1, aggregate + |item.payload|) == Ok(rest)
    ensures DecodeItems(EncodeItem(item) + after, n, aggregate) == Ok([item] + rest)
  {
    ItemHeader(item, after);
    assert FirstItem(EncodeItem(item) + after, aggregate) == Ok(item);
  }

  lemma {:induction false} DecodeEncoded(items: seq<Item>, tail: seq<byte>, aggregate: nat)
    requires forall i | 0 <= i < |items| :: |items[i].payload| <= MAX_PAYLOAD
    requires aggregate + Total(items) <= MAX_AGGREGATE
    ensures DecodeItems(EncodeItems(items) + tail, |items|, aggregate) == Ok(items)
    decreases |items|
  {
    if |items| > 0 {
      var item, rest := items[0], items[1..];
      var after := EncodeItems(rest) + tail;
      EncodedFirst(items, tail);
      DecodeEncoded(rest, tail, aggregate + |item.payload|);
      DecodeNext(item, after, |items|, aggregate, rest);
    }
  }

  lemma {:induction false} EncodedFirst(items: seq<Item>, tail: seq<byte>)
    requires |items| > 0
    ensures EncodeItems(items) + tail == EncodeItem(items[0]) + (EncodeItems(items[1..]) + tail)
    ensures EncodeItems(items) == EncodeItem(items[0]) + EncodeItems(items[1..])
    ensures [items[0]] + items[1..] == items
  {
  }

  lemma HeaderRebuilds(bs: seq<byte>, aggregate: nat)
    requires FirstItem(bs, aggregate).Ok?
    ensures var item := FirstItem(bs, aggregate).value;
            && bs == EncodeItem(item) + AfterItem(bs, item)
            && |item.payload| <= MAX_PAYLOAD && aggregate + |item.payload| <= MAX_AGGREGATE
  {
    var plen := Number(bs[8..12]);
    BigEndianOfNumber(bs[..8]);
    BigEndianOfNumber(bs[8..12]);
    assert bs == bs[..8] + bs[8..12] + bs[12..12 + plen] + bs[12 + plen..];
  }

  /** `bs` starts with the encoding of `items`, which fit the caps after `aggregate` earlier bytes. */
  ghost predicate Encoded(items: seq<Item>, bs: seq<byte>, aggregate: nat)
  {
    && (forall i | 0 <= i < |items| :: |items[i].payload| <= MAX_PAYLOAD)
    && (|items| > 0 ==> aggregate + Total(items) <= MAX_AGGREGATE)
    && EncodeItems(items) <= bs
  }

  lemma EncodedStep(bs: seq<byte>, aggregate: nat, item: Item, rest: seq<Item>)
    requires FirstItem(bs, aggregate) == Ok(item)
    requires Encoded(rest, AfterItem(bs, item), aggregate + |item.payload|)
    ensures Encoded([item] + rest, bs, aggregate)
  {
    HeaderRebuilds(bs, aggregate);
    assert ([item] + rest)[1..] == rest;
    PrefixAfter(EncodeItem(item), EncodeItems(rest), AfterItem(bs, item), bs);
  }

  lemma {:induction false} DecodedWasEncoded(bs: seq<byte>, n: nat, aggregate: nat)
    requires DecodeItems(bs, n, aggregate).Ok?
    ensures |DecodeItems(bs, n, aggregate).value| == n
    ensures Encoded(DecodeItems(bs, n, aggregate).value, bs, aggregate)
    decreases n
  {
    if n > 0 {
      var item := FirstItem(bs, aggregate).value;
      DecodedWasEncoded(AfterItem(bs, item), n - 1, aggregate + |item.payload|);
      EncodedStep(bs, aggregate, item, DecodeItems(AfterItem(bs, item), n - 1, aggregate + |item.payload|).value);
    }
  }

  lemma PrefixAfter(a: seq<byte>, b: seq<byte>, rest: seq<byte>, bs: seq<byte>)
    requires bs == a + rest && b <= rest
    ensures a + b <= bs
  {
    assert rest == b + rest[|b|..];
    assert bs == (a + b) + rest[|b|..];
  }

  /** The client reads a page exactly when the stream starts with its encoding and it is within the caps. */
  lemma DecodeExact(bs: seq<byte>, items: seq<Item>)
    ensures DecodePage(bs) == Ok(items) <==> WithinCaps(items) && EncodePage(items) <= bs
  {
    if DecodePage(bs) == Ok(items) {
      PageWasEncoded(bs, items);
    }
    if WithinCaps(items) && EncodePage(items) <= bs {
      DecodeEncodedPage(bs, items);
    }
  }

  lemma PageWasEncoded(bs: seq<byte>, items: seq<Item>)
    requires DecodePage(bs) == Ok(items)
    ensures WithinCaps(items) && EncodePage(items) <= bs
  {
    DecodedWasEncoded(bs[8..], Number(bs[..8]), 0);
    BigEndianOfNumber(bs[..8]);
    assert bs == bs[..8] + bs[8..];
    PrefixAfter(bs[..8], EncodeItems(items), bs[8..], bs);
  }

  lemma DecodeEncodedPage(bs: seq<byte>, items: seq<Item>)
    requires WithinCaps(items) && EncodePage(items) <= bs
    ensures DecodePage(bs) == Ok(items)
  {
    PowWidths();
    var tail := bs[|EncodePage(items)|..];
    assert bs == EncodePage(items) + tail;
    NumberOfBigEndian(|items|, 8);
    assert bs[..8] == BigEndian(|items|, 8);
    assert bs[8..] == EncodeItems(items) + tail;
    DecodeEncoded(items, tail, 0);
  }

  /** Any page a server can write comes back whole exactly when it is within the client's caps. */
  lemma RoundTripIff(items: seq<Item>)
    ensures DecodePage(EncodePage(items)) == Ok(items) <==> WithinCaps(items)
  {
    DecodeExact(EncodePage(items), items);
  }

  /** What a client reads from a whole page, if anything, is that page. */
  lemma WholePageIsRead(items: seq<Item>)
    requires |items| < TWO_64 && forall i | 0 <= i < |items| :: |items[i].payload| <= MAX_PAYLOAD
    ensures DecodePage(EncodePage(items)).Ok? ==> DecodePage(EncodePage(items)) == Ok(items)
  {
    var bs := EncodePage(items);
    PowWidths();
    NumberOfBigEndian(|items|, 8);
    assert bs[..8] == BigEndian(|items|, 8) && bs[8..] == EncodeItems(items);
    WholeItemsAreRead(items, 0);
  }

  lemma {:induction false} WholeItemsAreRead(items: seq<Item>, aggregate: nat)
    requires forall i | 0 <= i < |items| :: |items[i].payload| <= MAX_PAYLOAD
    ensures var r := DecodeItems(EncodeItems(items), |items|, aggregate); r.Ok? ==> r == Ok(items)
    decreases |items|
  {
    if |items| > 0 {
      var item, rest := items[0], items[1..];
      EncodedFirst(items, []);
      WholeItemsAreRead(rest, aggregate + |item.payload|);
      NextOfWhole(item, EncodeItems(rest), |items|, aggregate, rest);
    }
  }

  lemma {:induction false} NextOfWhole(item: Item, after: seq<byte>, n: nat, aggregate: nat, rest: seq<Item>)
    requires n > 0 && |item.payload| <= MAX_PAYLOAD
    requires var r := DecodeItems(after, n - 1, aggregate + |item.payload|); r.Ok? ==> r == Ok(rest)
    ensures var r := DecodeItems(EncodeItem(item) + after, n, aggregate); r.Ok? ==> r == Ok([item] + rest)
  {
    FirstOfWhole(item, after, aggregate);
  }

  lemma FirstOfWhole(item: Item, after: seq<byte>, aggregate: nat)
    requires |item.payload| <= MAX_PAYLOAD
    ensures var bs := EncodeItem(item) + after;
            FirstItem(bs, aggregate).Ok? ==> FirstItem(bs, aggregate) == Ok(item) && AfterItem(bs, item) == after
  {
    ItemHeader(item, after);
  }

  /** A stream cut anywhere before its end is refused, never read as a shorter page. */
  lemma CutStreamIsRefused(items: seq<Item>, cut: nat)
    requires WithinCaps(items) && cut < |EncodePage(items)|
    ensures DecodePage(EncodePage(items)[..cut]).Err?
  {
    var whole := EncodePage(items);
    var part := whole[..cut];
    if DecodePage(part).Ok? {
      var other := DecodePage(part).value;
      DecodeExact(part, other);
      assert EncodePage(other) <= whole;
      DecodeExact(whole, other);
      DecodeExact(whole, items);
    }
  }

  // ------------------------------------------------------------ the client

  /** The read side of a stream: `rest` is what the peer sent and nobody has read yet. */
  class Reader {
    var rest: seq<byte>

    constructor (sent: seq<byte>)
      ensures rest == sent
    {
      rest := sent;
    }

    /** Fills a buffer of `n` bytes, or fails with whatever was left consumed. */
    method ReadFull(n: nat) returns (buf: Option<seq<byte>>)
      modifies this
      ensures buf == if |old(rest)| < n then None else Some(old(rest)[..n])
      ensures rest == if |old(rest)| < n then [] else old(rest)[n..]
    {
      if |rest| < n {
        rest := [];
        return None;
      }
      buf := Some(rest[..n]);
      rest := rest[n..];
    }
  }

  lemma PrependTwice(a: seq<Item>, item: Item, r: Result<seq<Item>, WireError>)
    ensures Prepend(a, Prepend([item], r)) == Prepend(a + [item], r)
  {
    if r.Ok? {
      assert a + ([item] + r.value) == (a + [item]) + r.value;
    }
  }

  lemma PrependNothing(r: Result<seq<Item>, WireError>)
    ensures Prepend([], r) == r
  {
    assert r.Ok? ==> [] + r.value == r.value;
  }

  method ReadEntry(s: Reader, aggregate: nat) returns (r: Result<Item, WireError>)
    modifies s
    ensures r == FirstItem(old(s.rest), aggregate)
    ensures r.Ok? ==> s.rest == AfterItem(old(s.rest), r.value)
  {
    ghost var bs := s.rest;
    var eh := s.ReadFull(12);
    if eh.None? {
      return Err(ShortRead);
    }
    assert eh.value[..8] == bs[..8] && eh.value[8..] == bs[8..12];
    var id, plen := Id(eh.value), Number(eh.value[8..]);
    if plen > MAX_PAYLOAD {
      return Err(PayloadTooLarge);
    }
    if aggregate + plen > MAX_AGGREGATE {
      return Err(AggregateTooLarge);
    }
    var payload := s.ReadFull(plen);
    if payload.None? {
      return Err(ShortRead);
    }
    assert bs[12..][..plen] == bs[12..12 + plen] && bs[12..][plen..] == bs[12 + plen..];
    return Ok(Item(id, payload.value));
  }

  /** The receiving half of both fetch clients. */
  method FetchClient(s: Reader) returns (r: Result<seq<Item>, WireError>)
    modifies s
    ensures r == DecodePage(old(s.rest))
  {
    var countBuf := s.ReadFull(8);
    if countBuf.None? {
      return Err(ShortRead);
    }
    var n := Number(countBuf.value);
    if n > MAX_ENTRIES {
      return Err(TooManyEntries);
    }
    var out: seq<Item> := [];
    var aggregate: nat := 0;
    var i := 0;
    ghost var wanted := DecodePage(old(s.rest));
    PrependNothing(DecodeItems(s.rest, n, 0));
    while i < n
      invariant 0 <= i <= n
      invariant wanted == Prepend(out, DecodeItems(s.rest, n - i, aggregate))
    {
      var item := ReadEntry(s, aggregate);
      if item.Err? {
        return Err(item.error);
      }
      aggregate := aggregate + |item.value.payload|;
      i := i + 1;
      PrependTwice(out, item.value, DecodeItems(s.rest, n - i, aggregate));
      out := out + [item.value];
    }
    assert out + [] == out;
    return Ok(out);
  }

  // ------------------------------------------------------------ the server

  /** The first `limit` rows whose id is at least `from`, rows being in id order. */
  function PageFrom(rows: seq<Item>, from: nat, limit: nat): seq<Item>
  {
    if |rows| == 0 || limit == 0 then []
    else if rows[0].id < from then PageFrom(rows[1..], from, limit)
    else [rows[0]] + PageFrom(rows[1..], from, limit - 1)
  }

  function Capped(count: nat): nat
  {
    if count > MAX_ENTRIES then MAX_ENTRIES else count
  }

  /** What a request is answered with, and whether the stream is closed cleanly rather than reset. */
  datatype Reply = Reply(sent: seq<byte>, clean: bool)

  method CollectPage(rows: seq<Item>, from: nat, limit: nat) returns (entries: seq<Item>)
    ensures entries == PageFrom(rows, from, limit)
    ensures |entries| <= limit
  {
    entries := [];
    var i := 0;
    while i < |rows| && |entries| < limit
      invariant 0 <= i <= |rows| && |entries| <= limit
      invariant PageFrom(rows, from, limit) == entries + PageFrom(rows[i..], from, limit - |entries|)
    {
      PageStep(rows, i, from, limit - |entries|);
      if rows[i].id >= from {
        AppendAssociates(entries, rows[i], PageFrom(rows[i + 1..], from, limit - |entries| - 1));
        entries := entries + [rows[i]];
      }
      i := i + 1;
    }
    assert entries + [] == entries;
  }

  lemma PageStep(rows: seq<Item>, i: nat, from: nat, limit: nat)
    requires i < |rows| && limit > 0
    ensures PageFrom(rows[i..], from, limit)
         == if rows[i].id < from then PageFrom(rows[i + 1..], from, limit)
            else [rows[i]] + PageFrom(rows[i + 1..], from, limit - 1)
  {
    assert rows[i..][1..] == rows[i + 1..];
  }

  lemma AppendAssociates<T>(a: seq<T>, x: T, b: seq<T>)
    ensures a + ([x] + b) == (a + [x]) + b
  {
  }

  /** What an answer to a request must be, `from` being the first id asked for. */
  ghost predicate Answers(reply: Reply, rows: seq<Item>, from: nat, count: nat, iterates: bool)
  {
    var page := if iterates then PageFrom(rows, from, Capped(count)) else [];
    && reply.sent <= EncodePage(page)
    && (reply.clean <==> forall i | 0 <= i < |page| :: |page[i].payload| <= MAX_PAYLOAD)
    && (reply.clean ==> reply.sent == EncodePage(page))
    && (!reply.clean ==> DecodePage(reply.sent).Err?)
  }

  /**
   Serves one request for the own log.  A store that cannot be iterated is answered
   with an empty page; an oversized entry cuts the stream and resets it.
   */
  method HandleFetch(request: seq<byte>, rows: seq<Item>, iterates: bool) returns (reply: Reply)
    ensures |request| < 16 ==> reply == Reply([], false)
    ensures |request| >= 16 ==> Answers(reply, rows, Number(request[..8]), Number(request[8..16]), iterates)
  {
    if |request| < 16 {
      return Reply([], false);
    }
    reply := ServePage(rows, Number(request[..8]), Number(request[8..16]), iterates);
  }

  /** Serves one request for the inbox, whose cursor is the last rowid already seen. */
  method HandleInboxFetch(request: seq<byte>, rows: seq<Item>, iterates: bool) returns (reply: Reply)
    ensures |request| < 16 ==> reply == Reply([], false)
    ensures |request| >= 16 ==> Answers(reply, rows, Number(request[..8]) + 1, Number(request[8..16]), iterates)
  {
    if |request| < 16 {
      return Reply([], false);
    }
    reply := ServePage(rows, Number(request[..8]) + 1, Number(request[8..16]), iterates);
  }

  /** What the two handlers have in common. */
  method ServePage(rows: seq<Item>, from: nat, count: nat, iterates: bool) returns (reply: Reply)
    ensures Answers(reply, rows, from, count, iterates)
  {
    if count == 0 || !iterates {
      assert EncodePage([]) == BigEndian(0, 8);
      assert PageFrom(rows, from, 0) == [];
      return Reply(BigEndian(0, 8), true);
    }
    var entries := CollectPage(rows, from, Capped(count));
    reply := WritePage(entries);
  }

  method WritePage(entries: seq<Item>) returns (reply: Reply)
    requires |entries| <= MAX_ENTRIES
    ensures reply.sent <= EncodePage(entries)
    ensures reply.clean <==> forall i | 0 <= i < |entries| :: |entries[i].payload| <= MAX_PAYLOAD
    ensures reply.clean ==> reply.sent == EncodePage(entries)
    ensures !reply.clean ==> DecodePage(reply.sent).Err?
  {
    var sent := BigEndian(|entries|, 8);
    var i := 0;
    while i < |entries|
      invariant 0 <= i <= |entries|
      invariant sent == BigEndian(|entries|, 8) + EncodeItems(entries[..i])
      invariant forall j | 0 <= j < i :: |entries[j].payload| <= MAX_PAYLOAD
    {
      if |entries[i].payload| > MAX_PAYLOAD {
        EncodeSplits(entries, i);
        assert EncodePage(entries) == sent + EncodeItems(entries[i..]);
        ShortOfCount(entries[..i], |entries|, sent);
        return Reply(sent, false);
      }
      EncodeOneMore(entries, i);
      sent := sent + EncodeItem(entries[i]);
      i := i + 1;
    }
    assert entries[..i] == entries;
    return Reply(sent, true);
  }

  lemma EncodeOneMore(items: seq<Item>, i: nat)
    requires i < |items|
    ensures EncodeItems(items[..i + 1]) == EncodeItems(items[..i]) + EncodeItem(items[i])
  {
    EncodeSplits(items[..i + 1], i);
    assert items[..i + 1][..i] == items[..i] && items[..i + 1][i..] == [items[i]];
    assert EncodeItems([items[i]]) == EncodeItem(items[i]) + EncodeItems([]);
  }

  lemma {:induction false} EncodeSplits(items: seq<Item>, i: nat)
    requires i <= |items|
    ensures EncodeItems(items) == EncodeItems(items[..i]) + EncodeItems(items[i..])
    decreases i
  {
    if i == 0 {
      assert items[..0] == [] && items[0..] == items;
    } else {
      EncodeSplits(items[1..], i - 1);
      assert items[..i][1..] == items[1..][..i - 1] && items[i..] == items[1..][i - 1..];
      assert items[..i][0] == items[0];
    }
  }

  /** Fewer entries than the count promises never decode. */
  lemma {:induction false} DecodeTooFew(items: seq<Item>, n: nat, aggregate: nat)
    requires n > |items|
    requires forall i | 0 <= i < |items| :: |items[i].payload| <= MAX_PAYLOAD
    ensures DecodeItems(EncodeItems(items), n, aggregate).Err?
    decreases |items|
  {
    if |items| > 0 {
      ItemHeader(items[0], EncodeItems(items[1..]));
      DecodeTooFew(items[1..], n - 1, aggregate + |items[0].payload|);
    }
  }

  lemma ShortOfCount(items: seq<Item>, n: nat, sent: seq<byte>)
    requires |items| < n <= MAX_ENTRIES
    requires forall i | 0 <= i < |items| :: |items[i].payload| <= MAX_PAYLOAD
    requires sent == BigEndian(n, 8) + EncodeItems(items)
    ensures DecodePage(sent).Err?
  {
    PowWidths();
    NumberOfBigEndian(n, 8);
    assert sent[..8] == BigEndian(n, 8) && sent[8..] == EncodeItems(items);
    DecodeTooFew(items, n, 0);
  }
}
