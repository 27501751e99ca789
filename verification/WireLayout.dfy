/** Where everything stands in a page, byte by byte, and which error a client gives for what is no page. */
module WireLayout {
  import opened Wrappers
  import opened Wire

  // ------------------------------------------------------------ bytes

  /** Byte `i` of a number, the most significant first. */
  lemma {:induction false} ByteIs(n: nat, width: nat, i: nat)
    requires i < width
    ensures BigEndian(n, width)[i] as int == n / Pow256(width - 1 - i) % 256
  {
    if i < width - 1 {
      ByteIs(n / 256, width - 1, i);
      DivideTwice(n, Pow256(width - 2 - i));
    }
  }

  lemma {:induction false} DivideTwice(n: nat, power: nat)
    requires power > 0
    ensures n / 256 / power == n / (power * 256)
  {
    var q, r := n / 256, n % 256;
    var q2, r2 := q / power, q % power;
    assert q == power * q2 + r2;
    assert n == (power * 256) * q2 + (256 * r2 + r) by {
      assert n == 256 * (power * q2 + r2) + r;
      Regrouped(power, q2, r2);
    }
    Quotient(n, power * 256, q2, 256 * r2 + r);
  }

  lemma {:induction false} Regrouped(power: nat, q: nat, r: nat)
    ensures 256 * (power * q + r) == (power * 256) * q + 256 * r
  {
  }

  lemma {:induction false} Quotient(n: nat, d: nat, q: nat, r: nat)
    requires d > 0 && r < d && n == d * q + r
    ensures n / d == q
  {
    var k := n / d - q;
    assert d * (n / d) + n % d == n;
    assert d * k == r - n % d;
    if k != 0 {
      MultipleIsLarge(d, k);
    }
  }

  lemma {:induction false} MultipleIsLarge(d: int, k: int)
    requires d > 0 && k != 0
    ensures d * k >= d || d * k <= -d
  {
    if k > 0 {
      assert d * (k - 1) >= 0;
    } else {
      assert d * (-1 - k) >= 0;
    }
  }

  // ------------------------------------------------------------ pages

  /** Where entry `i` begins: behind the count and the earlier entries, each 12 bytes longer than its payload. */
  function EntryStart(items: seq<Item>, i: nat): nat
    requires i <= |items|
  {
    if i == 0 then 8 else EntryStart(items, i - 1) + 12 + |items[i - 1].payload|
  }

  /** These bytes are the digits of a number to the base 256, the most significant first. */
  ghost predicate AreDigits(bs: seq<byte>, n: nat)
  {
    forall k | 0 <= k < |bs| :: bs[k] as int == n / Pow256(|bs| - 1 - k) % 256
  }

  ghost predicate HasNumberAt(bs: seq<byte>, at: nat, n: nat, width: nat)
  {
    at + width <= |bs| && AreDigits(bs[at..at + width], n)
  }

  ghost predicate HasEntryAt(bs: seq<byte>, at: nat, item: Item)
  {
    && HasNumberAt(bs, at, item.id, 8) && HasNumberAt(bs, at + 8, |item.payload|, 4)
    && at + 12 + |item.payload| <= |bs| && bs[at + 12..at + 12 + |item.payload|] == item.payload
  }

  lemma {:induction false} NumberStands(before: seq<byte>, n: nat, width: nat, after: seq<byte>)
    ensures HasNumberAt(before + BigEndian(n, width) + after, |before|, n, width)
  {
    var digits, bs := BigEndian(n, width), before + BigEndian(n, width) + after;
    forall k | 0 <= k < |digits| ensures digits[k] as int == n / Pow256(|digits| - 1 - k) % 256 {
      ByteIs(n, width, k);
    }
    assert bs[|before|..|before| + width] == digits;
  }

  lemma {:induction false} EntryStands(before: seq<byte>, item: Item, after: seq<byte>)
    ensures HasEntryAt(before + EncodeItem(item) + after, |before|, item)
  {
    var bs, id, length := before + EncodeItem(item) + after, BigEndian(item.id, 8), BigEndian(|item.payload|, 4);
    FourParts(before, id, length, item.payload, after);
    NumberStands(before, item.id, 8, length + item.payload + after);
    NumberStands(before + id, |item.payload|, 4, item.payload + after);
    SliceStands(before + id + length, item.payload, after);
  }

  lemma {:induction false} SliceStands(before: seq<byte>, part: seq<byte>, after: seq<byte>)
    ensures (before + part + after)[|before|..|before| + |part|] == part
  {
  }

  lemma {:induction false} FourParts(a: seq<byte>, b: seq<byte>, c: seq<byte>, d: seq<byte>, e: seq<byte>)
    ensures a + (b + c + d) + e == a + b + (c + d + e)
    ensures a + (b + c + d) + e == (a + b) + c + (d + e)
    ensures a + (b + c + d) + e == (a + b + c) + d + e
  {
  }

  /** The first `i` entries and their count take up the bytes before entry `i`. */
  lemma {:induction false} StartIsLength(items: seq<Item>, i: nat)
    requires i <= |items|
    ensures EntryStart(items, i) == 8 + |EncodeItems(items[..i])|
  {
    if i > 0 {
      StartIsLength(items, i - 1);
      EncodeOneMore(items, i - 1);
    }
  }

  lemma {:induction false} PageSplits(items: seq<Item>, i: nat)
    requires i < |items|
    ensures EncodePage(items)
         == (BigEndian(|items|, 8) + EncodeItems(items[..i])) + EncodeItem(items[i]) + EncodeItems(items[i + 1..])
  {
    EncodeSplits(items, i + 1);
    EncodeOneMore(items, i);
  }

  /** A page is its count and then entry after entry, each its id, the length of its payload and the payload. */
  lemma {:induction false} PageLayout(items: seq<Item>)
    ensures |EncodePage(items)| == EntryStart(items, |items|)
    ensures HasNumberAt(EncodePage(items), 0, |items|, 8)
    ensures forall i | 0 <= i < |items| :: HasEntryAt(EncodePage(items), EntryStart(items, i), items[i])
  {
    StartIsLength(items, |items|);
    assert items[..|items|] == items;
    NumberStands([], |items|, 8, EncodeItems(items));
    assert [] + BigEndian(|items|, 8) + EncodeItems(items) == EncodePage(items);
    forall i | 0 <= i < |items| ensures HasEntryAt(EncodePage(items), EntryStart(items, i), items[i]) {
      EntryIsAt(items, i);
    }
  }

  lemma {:induction false} EntryIsAt(items: seq<Item>, i: nat)
    requires i < |items|
    ensures HasEntryAt(EncodePage(items), EntryStart(items, i), items[i])
  {
    StartIsLength(items, i);
    PageSplits(items, i);
    EntryStands(BigEndian(|items|, 8) + EncodeItems(items[..i]), items[i], EncodeItems(items[i + 1..]));
  }

  function PayloadBytes(items: seq<Item>): nat
  {
    if |items| == 0 then 0 else PayloadBytes(items[..|items| - 1]) + |items[|items| - 1].payload|
  }

  lemma {:induction false} TotalOfMore(items: seq<Item>, item: Item)
    ensures Total(items + [item]) == Total(items) + |item.payload|
  {
    if |items| == 0 {
      assert items + [item] == [item] && [item][1..] == [];
    } else {
      assert (items + [item])[1..] == items[1..] + [item];
      TotalOfMore(items[1..], item);
    }
  }

  lemma {:induction false} TotalIs(items: seq<Item>)
    ensures Total(items) == PayloadBytes(items)
  {
    if |items| > 0 {
      TotalIs(items[..|items| - 1]);
      TotalOfMore(items[..|items| - 1], items[|items| - 1]);
      assert items[..|items| - 1] + [items[|items| - 1]] == items;
    }
  }

  /** A client buffers at most a thousand entries of at most 1 MiB each and at most 32 MiB together. */
  lemma {:induction false} CapsAre(items: seq<Item>)
    ensures WithinCaps(items)
       <==> && |items| <= 1000
            && (forall i | 0 <= i < |items| :: |items[i].payload| <= 1024 * 1024)
            && PayloadBytes(items) <= 32 * 1024 * 1024
  {
    TotalIs(items);
  }

  // ------------------------------------------------------------ what is no page

  /** What the client makes of the next entry, `before` payload bytes having been read. */
  ghost predicate FailsAt(rest: seq<byte>, before: nat, e: WireError)
  {
    if |rest| < 12 then e == ShortRead
    else
      var length := Number(rest[8..12]);
      if length > 1024 * 1024 then e == PayloadTooLarge
      else if before + length > 32 * 1024 * 1024 then e == AggregateTooLarge
      else e == ShortRead && |rest| < 12 + length
  }

  /** The entries read before the first that cannot be, and what of the stream is left there. */
  ghost predicate StopsBehind(bs: seq<byte>, n: nat, before: nat, items: seq<Item>, rest: seq<byte>, e: WireError)
  {
    |items| < n && bs == EncodeItems(items) + rest && FailsAt(rest, before + PayloadBytes(items), e)
  }

  lemma {:induction false} FirstItemIs(bs: seq<byte>, before: nat)
    ensures FirstItem(bs, before).Err? ==> FailsAt(bs, before, FirstItem(bs, before).error)
  {
  }

  lemma {:induction false} BytesOfMore(item: Item, items: seq<Item>)
    ensures PayloadBytes([item] + items) == |item.payload| + PayloadBytes(items)
  {
    TotalIs([item] + items);
    TotalIs(items);
    assert ([item] + items)[1..] == items;
  }

  lemma {:induction false} EncodedMore(item: Item, items: seq<Item>, rest: seq<byte>)
    ensures EncodeItems([item] + items) + rest == EncodeItem(item) + (EncodeItems(items) + rest)
  {
    EncodedFirst([item] + items, rest);
    assert ([item] + items)[1..] == items;
  }

  lemma {:induction false} ItemsFail(bs: seq<byte>, n: nat, before: nat) returns (items: seq<Item>, rest: seq<byte>)
    requires DecodeItems(bs, n, before).Err?
    ensures StopsBehind(bs, n, before, items, rest, DecodeItems(bs, n, before).error)
    decreases n
  {
    var r := FirstItem(bs, before);
    if r.Err? {
      FirstItemIs(bs, before);
      items, rest := [], bs;
      assert bs == EncodeItems([]) + bs;
    } else {
      var item := r.value;
      HeaderRebuilds(bs, before);
      var later;
      later, rest := ItemsFail(AfterItem(bs, item), n - 1, before + |item.payload|);
      items := [item] + later;
      BytesOfMore(item, later);
      EncodedMore(item, later, rest);
    }
  }

  /**
   A stream that is no page is refused for its count or at its first bad entry: cut short,
   too long, or too much together with the entries before it.
   */
  lemma {:induction false} DecodeErrorIs(bs: seq<byte>) returns (items: seq<Item>, rest: seq<byte>)
    requires DecodePage(bs).Err?
    ensures |bs| < 8 ==> DecodePage(bs) == Err(ShortRead)
    ensures |bs| >= 8 && Number(bs[..8]) > 1000 ==> DecodePage(bs) == Err(TooManyEntries)
    ensures |bs| >= 8 && Number(bs[..8]) <= 1000 ==>
              StopsBehind(bs[8..], Number(bs[..8]), 0, items, rest, DecodePage(bs).error)
  {
    items, rest := [], [];
    if |bs| >= 8 && Number(bs[..8]) <= 1000 {
      items, rest := ItemsFail(bs[8..], Number(bs[..8]), 0);
    }
  }

  /** The value of a byte counts as many times as the power of 256 of what follows it. */
  lemma {:induction false} NumberIsPositional(b: byte, rest: seq<byte>)
    ensures Number([b] + rest) == b as nat * Pow256(|rest|) + Number(rest)
  {
    var bs := [b] + rest;
    if |rest| == 0 {
      assert bs[..0] == [];
    } else {
      var front := rest[..|rest| - 1];
      assert bs[..|bs| - 1] == [b] + front;
      NumberIsPositional(b, front);
      Shifted(b as nat, Pow256(|front|), Number(front), rest[|rest| - 1] as nat);
    }
  }

  lemma {:induction false} Shifted(b: nat, power: nat, front: nat, last: nat)
    ensures (b * power + front) * 256 + last == b * (power * 256) + (front * 256 + last)
  {
  }

  // ------------------------------------------------------------ answers

  /** A request for nothing, or one that the store cannot serve, is answered with a count of 0. */
  lemma {:induction false} EmptyAnswerIs(reply: Reply, rows: seq<Item>, from: nat, count: nat, iterates: bool)
    requires Answers(reply, rows, from, count, iterates) && (count == 0 || !iterates)
    ensures reply == Reply([0, 0, 0, 0, 0, 0, 0, 0], true)
  {
    assert PageFrom(rows, from, 0) == [];
    assert EncodePage([]) == BigEndian(0, 8);
    forall i: nat | i < 8 ensures BigEndian(0, 8)[i] == 0 {
      ByteIs(0, 8, i);
      NoPart(Pow256(7 - i));
    }
    assert BigEndian(0, 8) == [0, 0, 0, 0, 0, 0, 0, 0];
  }

  lemma {:induction false} NoPart(power: nat)
    requires power > 0
    ensures 0 / power == 0
  {
  }

  /** Any other is answered with the first rows from the id on, at most a thousand, unless one of them is too large. */
  lemma {:induction false} FullAnswerIs(reply: Reply, rows: seq<Item>, from: nat, count: nat)
    requires Answers(reply, rows, from, count, true)
    ensures var page := PageFrom(rows, from, if count > 1000 then 1000 else count);
            && |page| <= 1000
            && (reply.clean <==> forall i | 0 <= i < |page| :: |page[i].payload| <= 1024 * 1024)
            && (reply.clean ==> reply.sent == EncodePage(page))
  {
    PageIsShort(rows, from, if count > 1000 then 1000 else count);
  }

  lemma {:induction false} PageIsShort(rows: seq<Item>, from: nat, limit: nat)
    ensures |PageFrom(rows, from, limit)| <= limit
  {
    if |rows| > 0 && limit > 0 {
      PageIsShort(rows[1..], from, if rows[0].id < from then limit else limit - 1);
    }
  }

  /** Rows with growing ids are answered from the first one of at least the id asked for, without a gap. */
  lemma {:induction false} PageIsRun(rows: seq<Item>, from: nat, limit: nat) returns (start: nat)
    requires forall i, j | 0 <= i < j < |rows| :: rows[i].id < rows[j].id
    ensures start <= |rows| && (forall i | 0 <= i < |rows| :: rows[i].id < from <==> i < start)
    ensures PageFrom(rows, from, limit) == rows[start..if start + limit < |rows| then start + limit else |rows|]
  {
    start := 0;
    if |rows| > 0 && rows[0].id < from {
      var rest := PageIsRun(rows[1..], from, limit);
      start := rest + 1;
      assert forall i | 1 <= i < |rows| :: rows[i] == rows[1..][i - 1];
      NothingOfNone(rows[1..], from);
    } else {
      PageOfLater(rows, from, limit);
    }
  }

  lemma {:induction false} NothingOfNone(rows: seq<Item>, from: nat)
    ensures PageFrom(rows, from, 0) == []
  {
  }

  lemma {:induction false} PageOfLater(rows: seq<Item>, from: nat, limit: nat)
    requires forall i | 0 <= i < |rows| :: rows[i].id >= from
    ensures PageFrom(rows, from, limit) == rows[..if limit < |rows| then limit else |rows|]
  {
    if |rows| > 0 && limit > 0 {
      PageOfLater(rows[1..], from, limit - 1);
    }
  }
}
