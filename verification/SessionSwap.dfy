/**
 When the new store becomes readable, in terms of the stream: how much of a snapshot a prefix of its
 file delivers, and where a chunk must end for the store to be complete at the swap.
 */
module SessionSwap {
  import opened Bytes
  import opened Seqs
  import opened RdbString
  import opened RdbValue
  import opened RdbEncoding
  import opened RdbSnapshot
  import opened RdbWire
  import opened Session
  import Rdb = RdbParser
  import RdbChunks
  import S = ReplicaStream
  import C = ReplicaChunks
  import R = ReplicaRoundTrip
  import Q = ReplicaRequests
  import P = TsProj

  // ----- Prefixes of items -----

  /** A key that has not arrived completely is not loaded. */
  lemma PartialKey(floats: Floats, key: Str, j: nat, t: byte, c: Context)
    requires ValidStr(key) && j < |EncodeStr(key)|
    ensures var s := Rdb.State(EncodeStr(key)[..j], Rdb.ProcessingKey(t), c.db, c.expire, []);
      Rdb.Run(floats, s) == Rdb.Fed(s, [])
  {
    var k := EncodeStr(key);
    StringLoads(key, []);
    LoadStringStable(k[..j], k[j..]);
    assert k[..j] + k[j..] == k && k + [] == k;
  }

  /** A value whose size is known is not loaded before all of it is there. */
  lemma PartialOctets(floats: Floats, valueType: byte, e: seq<byte>, key: seq<byte>, j: nat, c: Context)
    requires ValueEnd(e, valueType) == Ready(|e|) && j < |e|
    ensures var s := Rdb.State(e[..j], Rdb.ProcessingValue(valueType), c.db, c.expire, key);
      Rdb.Run(floats, s) == Rdb.Fed(s, [])
  {
    assert e[..j] + e[j..] == e;
    if !ValueEnd(e[..j], valueType).NeedMore? {
      ValueEndStable(e[..j], valueType, e[j..]);
    }
  }

  lemma StepThenRun(floats: Floats, s: Rdb.State, s': Rdb.State)
    requires Rdb.Step(floats, s) == Rdb.Progress(s', [])
    ensures Rdb.Run(floats, s) == Rdb.Run(floats, s')
  {
    RdbChunks.PrependNothing(Rdb.Run(floats, s'));
  }

  predicate Quiet(r: Rdb.FeedResult) {
    r.Fed? && r.commands == []
  }

  /** The type octet and a part of the key. */
  lemma PartialKeyQuiet(floats: Floats, key: Str, t: byte, j: nat, c: Context)
    requires ValidStr(key) && j < |EncodeStr(key)| && Rdb.AfterOpcode(t) == Rdb.ProcessingKey(t)
    ensures Quiet(Rdb.Run(floats, AtItem([t] + EncodeStr(key)[..j], c)))
  {
    var rest := EncodeStr(key)[..j];
    OpcodeStep(floats, t, rest, c);
    StepThenRun(floats, AtItem([t] + rest, c), Rdb.State(rest, Rdb.ProcessingKey(t), c.db, c.expire, []));
    PartialKey(floats, key, j, t, c);
  }

  /** The type octet, the key and a part of the value. */
  lemma PartialValueQuiet(floats: Floats, key: Str, t: byte, e: seq<byte>, j: nat, c: Context)
    requires ValidStr(key) && ValueEnd(e, t) == Ready(|e|) && j < |e| && Rdb.AfterOpcode(t) == Rdb.ProcessingKey(t)
    ensures Quiet(Rdb.Run(floats, AtItem([t] + (EncodeStr(key) + e[..j]), c)))
  {
    var part := e[..j];
    var rest := EncodeStr(key) + part;
    var s1 := Rdb.State(rest, Rdb.ProcessingKey(t), c.db, c.expire, []);
    OpcodeStep(floats, t, rest, c);
    StepThenRun(floats, AtItem([t] + rest, c), s1);
    KeyStep(floats, t, key, part, c);
    StepThenRun(floats, s1, Rdb.State(part, Rdb.ProcessingValue(t), c.db, c.expire, Meaning(key)));
    PartialOctets(floats, t, e, Meaning(key), j, c);
  }

  lemma PrefixOfThree(t: byte, k: seq<byte>, e: seq<byte>, j: nat)
    requires 0 < j < 1 + |k| + |e|
    ensures ([t] + (k + e))[..j] == if j - 1 < |k| then [t] + k[..j - 1] else [t] + (k + e[..j - 1 - |k|])
  {
  }

  /** A key and a value that have not arrived completely give no command. */
  lemma PartialKeyValue(floats: Floats, key: Str, t: byte, e: seq<byte>, j: nat, c: Context)
    requires ValidStr(key) && ValueEnd(e, t) == Ready(|e|) && Rdb.AfterOpcode(t) == Rdb.ProcessingKey(t)
    requires j < 1 + |EncodeStr(key)| + |e|
    ensures Quiet(Rdb.Run(floats, AtItem(([t] + (EncodeStr(key) + e))[..j], c)))
  {
    var k := EncodeStr(key);
    if j > 0 {
      PrefixOfThree(t, k, e, j);
      if j - 1 < |k| {
        PartialKeyQuiet(floats, key, t, j - 1, c);
      } else {
        PartialValueQuiet(floats, key, t, e, j - 1 - |k|, c);
      }
    } else {
      var none: seq<byte> := [];
      assert ([t] + (k + e))[..j] == none;
    }
  }

  lemma KeyTypeOpcode(v: Value)
    requires ValidValue(v)
    ensures Rdb.AfterOpcode(TypeOctet(v)) == Rdb.ProcessingKey(TypeOctet(v))
  {
  }

  lemma ValueSized(floats: Floats, v: Value)
    requires ValidValue(v)
    ensures ValueEnd(EncodeValue(v), TypeOctet(v)) == Ready(|EncodeValue(v)|)
  {
    ValueRoundTrip(floats, 0, [], v, []);
    assert EncodeValue(v) + [] == EncodeValue(v);
  }

  /** Of a run that gives no command, no prefix gives one. */
  lemma QuietPrefix(floats: Floats, s: Rdb.State, more: seq<byte>)
    requires Quiet(Rdb.Run(floats, Rdb.Extend(s, more)))
    ensures Quiet(Rdb.Run(floats, s))
  {
    RdbChunks.RunSplit(floats, s, more);
  }

  /** Other items give no command when they have arrived. */
  lemma OtherItemQuiet(floats: Floats, item: Item, c: Context)
    requires ValidItem(item) && !item.KeyValue?
    ensures Quiet(Rdb.Run(floats, AtItem(EncodeItem(item), c)))
  {
    var c' := ItemContext(c, item);
    ItemRoundTrip(floats, item, [], c);
    assert EncodeItem(item) + [] == EncodeItem(item);
    assert Rdb.Run(floats, AtItem([], c')) == Rdb.Fed(AtItem([], c'), []);
  }

  /** An item that has not arrived completely gives no command. */
  lemma PartialItem(floats: Floats, item: Item, j: nat, c: Context)
    requires ValidItem(item) && j < |EncodeItem(item)|
    ensures Quiet(Rdb.Run(floats, AtItem(EncodeItem(item)[..j], c)))
  {
    if item.KeyValue? {
      KeyTypeOpcode(item.value);
      ValueSized(floats, item.value);
      PartialKeyValue(floats, item.key, TypeOctet(item.value), EncodeValue(item.value), j, c);
    } else {
      OtherItemQuiet(floats, item, c);
      QuietCut(floats, EncodeItem(item), j, c);
    }
  }

  lemma QuietCut(floats: Floats, e: seq<byte>, j: nat, c: Context)
    requires j <= |e| && Quiet(Rdb.Run(floats, AtItem(e, c)))
    ensures Quiet(Rdb.Run(floats, AtItem(e[..j], c)))
  {
    assert e[..j] + e[j..] == e;
    QuietPrefix(floats, AtItem(e[..j], c), e[j..]);
  }

  /** Where the last item that gives a command ends; zero if none does. */
  ghost function LastUse(floats: Floats, c: Context, items: seq<Item>): nat
    requires ValidItems(items)
    decreases |items|
  {
    if items == [] then 0
    else
      var e, c' := |EncodeItem(items[0])|, ItemContext(c, items[0]);
      if ItemsCommands(floats, c', items[1..]) != [] then e + LastUse(floats, c', items[1..])
      else if ItemCommands(floats, c, items[0]) != [] then e
      else 0
  }

  lemma {:induction false} UsedExactly(floats: Floats, c: Context, items: seq<Item>)
    requires ValidItems(items)
    ensures LastUse(floats, c, items) == 0 <==> ItemsCommands(floats, c, items) == []
    ensures items != [] && LastUse(floats, c, items) > 0 ==> LastUse(floats, c, items) >= |EncodeItem(items[0])|
    decreases |items|
  {
    if items != [] {
      UsedExactly(floats, ItemContext(c, items[0]), items[1..]);
      assert |EncodeItem(items[0])| > 0;
    }
  }

  // ----- Prefixes of files -----

  /** The commands of a part are the beginning of all, and all exactly if the condition holds. */
  predicate Delivers(r: Rdb.FeedResult, all: seq<RawCommand>, complete: bool) {
    r.Fed? && r.commands <= all && (r.commands == all <==> complete)
  }

  lemma PrefixOfAppend(e: seq<byte>, rest: seq<byte>, k: nat)
    requires k <= |e + rest|
    ensures k < |e| ==> (e + rest)[..k] == e[..k]
    ensures k >= |e| ==> (e + rest)[..k] == e + rest[..k - |e|]
  {
  }

  lemma DeliversMore(first: seq<RawCommand>, r: Rdb.FeedResult, rest: seq<RawCommand>, complete: bool)
    requires Delivers(r, rest, complete)
    ensures Delivers(Rdb.Prepend(first, r), first + rest, complete)
  {
  }

  lemma FirstItemPartial(floats: Floats, items: seq<Item>, k: nat, c: Context)
    requires ValidItems(items) && items != [] && k < |EncodeItem(items[0])|
    ensures Delivers(Rdb.Run(floats, AtItem(EncodeItem(items[0])[..k], c)), ItemsCommands(floats, c, items), k >= LastUse(floats, c, items))
  {
    PartialItem(floats, items[0], k, c);
    UsedExactly(floats, c, items);
  }

  lemma FirstItemWhole(floats: Floats, items: seq<Item>, r: seq<byte>, k: nat, c: Context)
    requires ValidItems(items) && items != []
    requires var c' := ItemContext(c, items[0]);
      Delivers(Rdb.Run(floats, AtItem(r, c')), ItemsCommands(floats, c', items[1..]), k >= LastUse(floats, c', items[1..]))
    ensures var e := EncodeItem(items[0]);
      Delivers(Rdb.Run(floats, AtItem(e + r, c)), ItemsCommands(floats, c, items), |e| + k >= LastUse(floats, c, items))
  {
    var c' := ItemContext(c, items[0]);
    ItemRoundTrip(floats, items[0], r, c);
    UsedExactly(floats, c', items[1..]);
    DeliversMore(ItemCommands(floats, c, items[0]), Rdb.Run(floats, AtItem(r, c')),
                 ItemsCommands(floats, c', items[1..]), k >= LastUse(floats, c', items[1..]));
  }

  lemma EncodeItemsCons(items: seq<Item>, tail: seq<byte>)
    requires ValidItems(items) && items != []
    ensures EncodeItems(items) + tail == EncodeItem(items[0]) + (EncodeItems(items[1..]) + tail)
  {
    Associate(EncodeItem(items[0]), EncodeItems(items[1..]), tail);
  }

  lemma FirstItemPrefix(floats: Floats, items: seq<Item>, e: seq<byte>, rest: seq<byte>, k: nat, c: Context)
    requires ValidItems(items) && items != [] && e == EncodeItem(items[0]) && k <= |e + rest|
    requires var c' := ItemContext(c, items[0]);
      k >= |e| ==> Delivers(Rdb.Run(floats, AtItem(rest[..k - |e|], c')), ItemsCommands(floats, c', items[1..]),
                            k - |e| >= LastUse(floats, c', items[1..]))
    ensures Delivers(Rdb.Run(floats, AtItem((e + rest)[..k], c)), ItemsCommands(floats, c, items), k >= LastUse(floats, c, items))
  {
    PrefixOfAppend(e, rest, k);
    if k < |e| {
      FirstItemPartial(floats, items, k, c);
    } else {
      FirstItemWhole(floats, items, rest[..k - |e|], k - |e|, c);
    }
  }

  lemma NoItemsPrefix(floats: Floats, tail: seq<byte>, k: nat, c: Context)
    requires k <= |tail| && Quiet(Rdb.Run(floats, AtItem(tail, c)))
    ensures Delivers(Rdb.Run(floats, AtItem(tail[..k], c)), [], true)
  {
    assert tail[..k] + tail[k..] == tail;
    QuietPrefix(floats, AtItem(tail[..k], c), tail[k..]);
  }

  /** How much of the commands of some items a prefix of their encoding gives. */
  lemma {:induction false} ItemsPrefix(floats: Floats, items: seq<Item>, tail: seq<byte>, k: nat, c: Context)
    requires ValidItems(items) && k <= |EncodeItems(items) + tail|
    requires Quiet(Rdb.Run(floats, AtItem(tail, ItemsContext(c, items))))
    ensures Delivers(Rdb.Run(floats, AtItem((EncodeItems(items) + tail)[..k], c)), ItemsCommands(floats, c, items),
                     k >= LastUse(floats, c, items))
    decreases |items|
  {
    if items == [] {
      NothingBefore(tail);
      NoItemsPrefix(floats, tail, k, c);
    } else {
      var e, rest := EncodeItem(items[0]), EncodeItems(items[1..]) + tail;
      EncodeItemsCons(items, tail);
      if k >= |e| {
        ItemsPrefix(floats, items[1..], tail, k - |e|, ItemContext(c, items[0]));
      }
      FirstItemPrefix(floats, items, e, rest, k, c);
    }
  }

  /** The same position in the file, after nine octets of magic and version. */
  ghost function FileUse(floats: Floats, items: seq<Item>): nat
    requires ValidItems(items)
  {
    var use := LastUse(floats, Context(0, None), items);
    if use == 0 then 0 else 9 + use
  }

  lemma HeadRun(floats: Floats, head: seq<byte>, body: seq<byte>)
    requires |head| == 9 && Rdb.ValidMagic(head)
    ensures Rdb.Feed(floats, Rdb.INITIAL, head + body) == Rdb.Run(floats, AtItem(body, Context(0, None)))
  {
    HeadStep(floats, head, body);
    StepThenRun(floats, Rdb.Extend(Rdb.INITIAL, head + body), AtItem(body, Context(0, None)));
  }

  lemma HeadPartial(floats: Floats, head: seq<byte>)
    requires |head| < 9
    ensures Quiet(Rdb.Feed(floats, Rdb.INITIAL, head))
  {
    NothingBefore(head);
  }

  lemma BodyPrefix(floats: Floats, items: seq<Item>, checksum: seq<byte>, m: nat)
    requires |checksum| == 8 && ValidItems(items) && m <= |EncodeItems(items) + ([255] + checksum)|
    ensures Delivers(Rdb.Run(floats, AtItem((EncodeItems(items) + ([255] + checksum))[..m], Context(0, None))),
                     ItemsCommands(floats, Context(0, None), items), m >= LastUse(floats, Context(0, None), items))
  {
    EndOfFile(floats, checksum, ItemsContext(Context(0, None), items));
    ItemsPrefix(floats, items, [255] + checksum, m, Context(0, None));
  }

  /** How much of the commands of a file a prefix of it gives. */
  lemma FilePrefix(floats: Floats, head: seq<byte>, items: seq<Item>, checksum: seq<byte>, n: nat)
    requires |head| == 9 && Rdb.ValidMagic(head) && |checksum| == 8 && ValidItems(items)
    requires n <= |EncodeFile(head, items, checksum)|
    ensures Delivers(Rdb.Feed(floats, Rdb.INITIAL, EncodeFile(head, items, checksum)[..n]),
                     ItemsCommands(floats, Context(0, None), items), n >= FileUse(floats, items))
  {
    var body := EncodeItems(items) + ([255] + checksum);
    PrefixOfAppend(head, body, n);
    UsedExactly(floats, Context(0, None), items);
    if n < 9 {
      HeadPartial(floats, head[..n]);
    } else {
      BodyPrefix(floats, items, checksum, n - 9);
      HeadRun(floats, head, body[..n - 9]);
    }
  }

  // ----- Prefixes of synchronisations -----

  /** Before the payload is complete, the stream parser delivers what the file prefix gives. */
  lemma StreamPrefix(floats: Floats, pad: seq<byte>, file: seq<byte>, rest: seq<byte>, n: nat)
    requires Q.IsPad(pad) && 0 < |file| <= 0xFFFF_FFFF_FFFF_FFFF && n < PayloadEnd(pad, file)
    requires var k := n - |R.EncodeHeader(pad, |file|)|; k >= 0 ==> Rdb.Feed(floats, Rdb.INITIAL, file[..k]).Fed?
    ensures var r := S.Feed(S.RdbFeeder(floats), S.INITIAL, R.SyncStream(pad, file, rest)[..n]);
      var k := n - |R.EncodeHeader(pad, |file|)|;
      r.Fed? && r.out.commands == if k <= 0 then [] else Rdb.Feed(floats, Rdb.INITIAL, file[..k]).commands
  {
    var feed, h := S.RdbFeeder(floats), R.EncodeHeader(pad, |file|);
    R.PrefixOfSync(h, file + rest, n);
    if n < |h| {
      HeaderQuiet(feed, pad, |file|, n);
    } else {
      var k := n - |h|;
      assert (file + rest)[..k] == file[..k];
      R.RunHeader(feed, pad, |file|, file[..k]);
      if k > 0 {
        var r := feed(Rdb.INITIAL, file[..k]);
        C.PartialRun(feed, R.AtPayload(file[..k], |file|), S.State([], S.ReadingRdb(r.state, |file|, k), 0), r.commands);
      }
    }
  }

  lemma HeaderQuiet(feed: S.Feeder, pad: seq<byte>, size: nat, n: nat)
    requires Q.IsPad(pad) && size <= 0xFFFF_FFFF_FFFF_FFFF && n < |R.EncodeHeader(pad, size)|
    ensures var r := S.Feed(feed, S.INITIAL, R.EncodeHeader(pad, size)[..n]); r.Fed? && r.out == S.SILENT
  {
    var h := R.EncodeHeader(pad, size);
    var p := S.State(h[..n], S.WaitingRdb, 0);
    assert p == S.Extend(S.INITIAL, h[..n]);
    R.HeaderRoundTrip(feed, pad, size, []);
    assert h + [] == h && h[..n] + h[n..] == h;
    HeaderIncomplete(feed, p, h[n..], R.AtPayload([], size));
    C.HeaderStable(p, h[n..]);
  }

  /** Where in the stream the last snapshot command is complete; zero if there is none. */
  ghost function SnapshotUse(floats: Floats, pad: seq<byte>, head: seq<byte>, items: seq<Item>, checksum: seq<byte>): nat
    requires ValidItems(items)
  {
    StreamUse(pad, EncodeFile(head, items, checksum), FileUse(floats, items))
  }

  function StreamUse(pad: seq<byte>, file: seq<byte>, use: nat): nat {
    if use == 0 then 0 else |R.EncodeHeader(pad, |file|)| + use
  }

  /** The prefixes of `file` give `all` exactly from position `use` on. */
  ghost predicate DeliversFrom(floats: Floats, file: seq<byte>, all: seq<RawCommand>, use: nat) {
    forall k :: 0 <= k <= |file| ==> Delivers(Rdb.Feed(floats, Rdb.INITIAL, file[..k]), all, k >= use)
  }

  lemma EmptyFeed(floats: Floats, file: seq<byte>)
    ensures Quiet(Rdb.Feed(floats, Rdb.INITIAL, file[..0]))
  {
    assert file[..0] == [];
    HeadPartial(floats, []);
  }

  lemma StreamDelivers(floats: Floats, pad: seq<byte>, file: seq<byte>, rest: seq<byte>, n: nat, all: seq<RawCommand>, use: nat)
    requires Q.IsPad(pad) && 0 < |file| <= 0xFFFF_FFFF_FFFF_FFFF && n < PayloadEnd(pad, file) && DeliversFrom(floats, file, all, use)
    ensures var r := S.Feed(S.RdbFeeder(floats), S.INITIAL, R.SyncStream(pad, file, rest)[..n]);
      r.Fed? && r.out.commands <= all && (r.out.commands == all <==> n >= StreamUse(pad, file, use))
  {
    var k := n - |R.EncodeHeader(pad, |file|)|;
    EmptyFeed(floats, file);
    assert Delivers(Rdb.Feed(floats, Rdb.INITIAL, file[..0]), all, 0 >= use);
    assert k >= 0 ==> Delivers(Rdb.Feed(floats, Rdb.INITIAL, file[..k]), all, k >= use);
    StreamPrefix(floats, pad, file, rest, n);
  }

  /** So a prefix of the stream that ends before the payload does delivers the snapshot exactly from there on. */
  lemma SnapshotPrefix(floats: Floats, pad: seq<byte>, head: seq<byte>, items: seq<Item>, checksum: seq<byte>, rest: seq<byte>, n: nat)
    requires |head| == 9 && Rdb.ValidMagic(head) && |checksum| == 8 && ValidItems(items)
    requires Q.IsPad(pad) && |EncodeFile(head, items, checksum)| <= 0xFFFF_FFFF_FFFF_FFFF
    requires n < PayloadEnd(pad, EncodeFile(head, items, checksum))
    ensures var all := ItemsCommands(floats, Context(0, None), items);
      var r := S.Feed(S.RdbFeeder(floats), S.INITIAL, R.SyncStream(pad, EncodeFile(head, items, checksum), rest)[..n]);
      && r.Fed? && r.out.commands <= all
      && (r.out.commands == all <==> n >= SnapshotUse(floats, pad, head, items, checksum))
  {
    var file, all, use := EncodeFile(head, items, checksum), ItemsCommands(floats, Context(0, None), items), FileUse(floats, items);
    forall k | 0 <= k <= |file|
      ensures Delivers(Rdb.Feed(floats, Rdb.INITIAL, file[..k]), all, k >= use)
    {
      FilePrefix(floats, head, items, checksum, k);
    }
    StreamDelivers(floats, pad, file, rest, n, all, use);
  }

  // ----- Complete at the swap -----

  /** The chunks before some position bring the session to where the prefix of the stream does. */
  lemma SessionAt(feed: S.Feeder, parse: Parse, s: Session, offset: nat, pad: seq<byte>, payload: seq<byte>, rest: seq<byte>,
                  n: nat, chunks: seq<seq<byte>>)
    requires C.Lawful(feed) && Q.IsPad(pad) && 0 < |payload| <= 0xFFFF_FFFF_FFFF_FFFF && R.Tight(feed, payload)
    requires n <= |R.SyncStream(pad, payload, rest)| && RdbChunks.Concat(chunks) == R.SyncStream(pad, payload, rest)[..n]
    requires S.Feed(feed, S.INITIAL, R.SyncStream(pad, payload, rest)[..n]).Fed?
    ensures var f := S.Feed(feed, S.INITIAL, R.SyncStream(pad, payload, rest)[..n]);
      var r := OnDataAll(feed, parse, FullResync(s, offset), chunks);
      r.Some? && r.value.parser == f.state && P.InStep(r.value.proj, ParseAll(parse, f.out.commands))
  {
    var stream := R.SyncStream(pad, payload, rest);
    var part := stream[..n];
    forall k | 0 <= k <= n
      ensures var r := S.Feed(feed, S.INITIAL, part[..k]); r.Fed? ==> !C.Stuck(r.state)
    {
      assert part[..k] == stream[..k];
      R.NeverStuck(feed, pad, payload, rest, k);
    }
    StartsSettled(feed, part);
    R.NotEarly(feed, part, 0, chunks);
    C.ChunkIndependence(feed, S.INITIAL, chunks);
    FreshInStep(s, offset);
    OnDataAllInStep(feed, parse, FullResync(s, offset), chunks, []);
    var cmds := ParseAll(parse, S.Feed(feed, S.INITIAL, part).out.commands);
    assert [] + cmds == cmds;
  }

  lemma Committed(proj: P.Proj, cmds: P.Group)
    requires P.InStep(proj, cmds)
    ensures P.Flatten(P.Target(proj)) == cmds[..P.Settled(cmds)]
  {
    var done := P.Flatten(P.Target(proj));
    assert (done + Reverse(proj.buffer))[..|done|] == done;
    assert proj.buffer == [] ==> done + Reverse(proj.buffer) == done;
  }

  lemma ParsePrefix(parse: Parse, a: seq<RawCommand>, b: seq<RawCommand>)
    requires a <= b
    ensures |ParseAll(parse, a)| == |a| && (a == b ==> ParseAll(parse, a) == ParseAll(parse, b)) && (a != b ==> |a| < |b|)
  {
  }

  /** The settled part of a prefix is everything exactly if the prefix is everything and nothing is open. */
  lemma WholeExactly(parse: Parse, part: seq<RawCommand>, all: seq<RawCommand>)
    requires part <= all
    ensures var cmds := ParseAll(parse, part);
      cmds[..P.Settled(cmds)] == ParseAll(parse, all) <==> part == all && !P.Open(ParseAll(parse, all))
  {
    ParsePrefix(parse, part, all);
    SettledWhenClosed(ParseAll(parse, part));
  }

  /**
   Chunks up to position `n` have arrived and the next one completes the payload.  When the new store
   becomes readable, it holds the whole snapshot exactly if the last item that gives a command ends
   at or before `n`, and the snapshot does not end inside a transaction.
   */
  lemma SwapCompleteAt(floats: Floats, parse: Parse, s: Session, offset: nat, pad: seq<byte>, head: seq<byte>, items: seq<Item>,
                       checksum: seq<byte>, rest: seq<byte>, n: nat, chunks: seq<seq<byte>>, data: seq<byte>)
    requires |head| == 9 && Rdb.ValidMagic(head) && |checksum| == 8 && ValidItems(items)
    requires Q.IsPad(pad) && |EncodeFile(head, items, checksum)| <= 0xFFFF_FFFF_FFFF_FFFF
    requires n < PayloadEnd(pad, EncodeFile(head, items, checksum))
    requires RdbChunks.Concat(chunks) == R.SyncStream(pad, EncodeFile(head, items, checksum), rest)[..n]
    requires var p := S.Feed(S.RdbFeeder(floats), S.INITIAL, R.SyncStream(pad, EncodeFile(head, items, checksum), rest)[..n]);
      p.Fed? ==> var f := S.Feed(S.RdbFeeder(floats), p.state, data); f.Fed? && f.state.mode == S.Streaming
    ensures var r := OnDataAll(S.RdbFeeder(floats), parse, FullResync(s, offset), chunks);
      var all := ParseAll(parse, ItemsCommands(floats, Context(0, None), items));
      && r.Some? && S.Feed(S.RdbFeeder(floats), r.value.parser, data).Fed?
      && var readable := Swapped(r.value, S.Feed(S.RdbFeeder(floats), r.value.parser, data).state);
         readable.ready && (P.Flatten(readable.current) == all
           <==> n >= SnapshotUse(floats, pad, head, items, checksum) && !P.Open(all))
  {
    var feed, file := S.RdbFeeder(floats), EncodeFile(head, items, checksum);
    FileRoundTrip(floats, head, items, checksum);
    R.FileIsTight(floats, file);
    C.RdbIsLawful(floats);
    SnapshotPrefix(floats, pad, head, items, checksum, rest, n);
    SessionAt(feed, parse, s, offset, pad, file, rest, n, chunks);
    ModeAfter(feed, pad, file, rest, n);
    var p := S.Feed(feed, S.INITIAL, R.SyncStream(pad, file, rest)[..n]);
    var proj := OnDataAll(feed, parse, FullResync(s, offset), chunks).value.proj;
    Committed(proj, ParseAll(parse, p.out.commands));
    WholeExactly(parse, p.out.commands, ItemsCommands(floats, Context(0, None), items));
  }

  // ----- A snapshot with one key -----

  /** The key "k" with the string "v". */
  const KEY := KeyValue(Plain(Bits6, [107]), StringValue(Plain(Bits6, [118])))

  /** It arrives in one chunk: readers find a store that is ready but lacks the key. */
  lemma OneChunkHidesKey(floats: Floats, s: Session, offset: nat, rs: seq<Q.Request>)
    requires R.ValidRequests(rs)
    ensures ValidItems([KEY]) && ItemsCommands(floats, Context(0, None), [KEY]) == [RawCommand(0, Octets("SET"), [[107], [118]])]
    ensures var feed, file, s0 := S.RdbFeeder(floats), EncodeFile(HEAD, [KEY], ToLittleEndian(0, 8)), FullResync(s, offset);
      var f := S.Feed(feed, s0.parser, R.EncodeSync([], file, rs));
      && f.Fed? && Begins(s0, f.state) && RawCommand(0, Octets("SET"), [[107], [118]]) in f.out.commands
      && Swapped(s0, f.state).ready && Swapped(s0, f.state).current == []
  {
    OneKey(floats);
    var file := EncodeFile(HEAD, [KEY], ToLittleEndian(0, 8));
    HeadAccepted();
    FileRoundTrip(floats, HEAD, [KEY], ToLittleEndian(0, 8));
    OneChunkSwapsEmpty(S.RdbFeeder(floats), s, offset, [], file, rs);
    R.SyncRoundTrip(S.RdbFeeder(floats), [], file, rs);
  }

  lemma OneKey(floats: Floats)
    ensures ValidItems([KEY]) && ItemsCommands(floats, Context(0, None), [KEY]) == [RawCommand(0, Octets("SET"), [[107], [118]])]
    ensures 0 < |EncodeFile(HEAD, [KEY], ToLittleEndian(0, 8))| <= 0xFFFF_FFFF_FFFF_FFFF
  {
    var items: seq<Item> := [KEY];
    assert ValidItem(KEY);
    assert items[1..] == [];
    assert EncodeItems(items) == EncodeItem(KEY) + [];
    assert |EncodeItem(KEY)| == 5;
    var key: seq<byte> := [107];
    var text: seq<byte> := [118];
    assert [key] + [text] == [key, text];
    assert ItemCommands(floats, Context(0, None), KEY) == [RawCommand(0, Octets("SET"), [key, text])];
  }
}
