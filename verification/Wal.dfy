/** The write-ahead log: length-prefixed records, and what replaying them recovers. */
module Wal {
  import opened Options
  import opened Bytes

  type Key = seq<Byte>
  type Value = seq<Byte>
  type State = map<Key, Value>

  datatype WalOp =
    | Set(key: Key, value: Value)
    | Delete(key: Key)
    | BeginBlock(height: nat)
    | CommitBlock(height: nat, appHash: seq<Byte>)

  datatype WalEntry = WalEntry(height: nat, op: WalOp, timestamp: nat)

  /** How records are turned into bytes and back. */
  datatype Codec = Codec(encode: WalEntry -> seq<Byte>, decode: seq<Byte> -> Option<WalEntry>)

  ghost predicate Lawful(c: Codec) { forall e :: c.decode(c.encode(e)) == Some(e) }

  /** The record is short enough for its four-byte length. */
  predicate Fits(c: Codec, e: WalEntry) { |c.encode(e)| < 0x1_0000_0000 }

  function Frame(c: Codec, e: WalEntry): seq<Byte> {
    ToLe(|c.encode(e)|, 4) + c.encode(e)
  }

  function Log(c: Codec, es: seq<WalEntry>): seq<Byte> {
    if es == [] then [] else Frame(c, es[0]) + Log(c, es[1..])
  }

  ghost predicate AllFit(c: Codec, es: seq<WalEntry>) { forall i :: 0 <= i < |es| ==> Fits(c, es[i]) }

  /** The record in these bytes, if they decode. */
  function Decoded(c: Codec, body: seq<Byte>): seq<WalEntry> {
    match c.decode(body) case Some(e) => [e] case None => []
  }

  /** Read records until the bytes run out; a record that does not decode is passed over. */
  function Records(c: Codec, data: seq<Byte>): seq<WalEntry>
    decreases |data|
  {
    if |data| < 4 then []
    else
      var len := FromLe(data[..4]);
      if 4 + len > |data| then [] else Decoded(c, data[4..4 + len]) + Records(c, data[4 + len..])
  }

  /** Appending a record appends its frame. */
  lemma {:induction false} LogBack(c: Codec, es: seq<WalEntry>, e: WalEntry)
    ensures Log(c, es + [e]) == Log(c, es) + Frame(c, e)
  {
    if es == [] {
      assert [] + [e] == [e];
      assert [e][1..] == [];
    } else {
      LogBack(c, es[1..], e);
      assert (es + [e])[1..] == es[1..] + [e];
      assert Frame(c, es[0]) + (Log(c, es[1..]) + Frame(c, e)) == Frame(c, es[0]) + Log(c, es[1..]) + Frame(c, e);
    }
  }

  /** A complete first record is read whole. */
  lemma ReadFirst(c: Codec, e: WalEntry, rest: seq<Byte>)
    requires Lawful(c) && Fits(c, e)
    ensures Records(c, Frame(c, e) + rest) == [e] + Records(c, rest)
  {
    var body := c.encode(e);
    var data := Frame(c, e) + rest;
    Width4();
    LeRoundTrip(|body|, 4);
    assert data[..4] == ToLe(|body|, 4);
    assert data[4..4 + |body|] == body;
    assert data[4 + |body|..] == rest;
  }

  /** A first record that is cut short is not read at all. */
  lemma ReadTorn(c: Codec, e: WalEntry, n: nat)
    requires Fits(c, e) && n < |Frame(c, e)|
    ensures Records(c, Frame(c, e)[..n]) == []
  {
    var data := Frame(c, e)[..n];
    if n >= 4 {
      Width4();
      LeRoundTrip(|c.encode(e)|, 4);
      assert data[..4] == ToLe(|c.encode(e)|, 4);
    }
  }

  lemma ReadOnto(c: Codec, e: WalEntry, tail: seq<Byte>, rest: seq<Byte>, es: seq<WalEntry>)
    requires Lawful(c) && Fits(c, e) && Records(c, tail + rest) == es + Records(c, rest)
    ensures Records(c, Frame(c, e) + tail + rest) == [e] + es + Records(c, rest)
  {
    ReadFirst(c, e, tail + rest);
    assert Frame(c, e) + tail + rest == Frame(c, e) + (tail + rest);
    assert [e] + es + Records(c, rest) == [e] + (es + Records(c, rest));
  }

  lemma {:induction false} ReadPrefix(c: Codec, es: seq<WalEntry>, rest: seq<Byte>)
    requires Lawful(c) && AllFit(c, es)
    ensures Records(c, Log(c, es) + rest) == es + Records(c, rest)
  {
    if es == [] {
      assert [] + rest == rest;
    } else {
      ReadPrefix(c, es[1..], rest);
      ReadOnto(c, es[0], Log(c, es[1..]), rest, es[1..]);
      assert es == [es[0]] + es[1..];
    }
  }

  /** Replaying the whole log reads back exactly what was written. */
  lemma LogRoundTrip(c: Codec, es: seq<WalEntry>)
    requires Lawful(c) && AllFit(c, es)
    ensures Records(c, Log(c, es)) == es
  {
    ReadPrefix(c, es, []);
    assert Log(c, es) + [] == Log(c, es) && Records(c, []) == [];
  }

  /** The number of complete records in the first `n` bytes. */
  function Complete(c: Codec, es: seq<WalEntry>, n: nat): (k: nat)
    ensures k <= |es|
  {
    if es == [] || n < |Frame(c, es[0])| then 0
    else 1 + Complete(c, es[1..], n - |Frame(c, es[0])|)
  }

  /** Counting complete records: as many as fit into `n` bytes, and no more. */
  lemma {:induction false} CompleteExact(c: Codec, es: seq<WalEntry>, n: nat)
    ensures var k := Complete(c, es, n);
      |Log(c, es[..k])| <= n && (k < |es| ==> n < |Log(c, es[..k + 1])|)
  {
    if es == [] || n < |Frame(c, es[0])| {
      assert es[..0] == [];
      if es != [] { assert es[..1] == [es[0]] && [es[0]][1..] == []; }
    } else {
      var m := n - |Frame(c, es[0])|;
      var j := Complete(c, es[1..], m);
      CompleteExact(c, es[1..], m);
      assert es[..j + 1][1..] == es[1..][..j];
      if j + 1 < |es| { assert es[..j + 2][1..] == es[1..][..j + 1]; }
    }
  }

  /** A log cut at any byte replays exactly its complete records. */
  lemma {:induction false} CutReplaysComplete(c: Codec, es: seq<WalEntry>, n: nat)
    requires Lawful(c) && AllFit(c, es) && n <= |Log(c, es)|
    ensures Records(c, Log(c, es)[..n]) == es[..Complete(c, es, n)]
  {
    if es == [] {
    } else {
      var frame := Frame(c, es[0]);
      if n < |frame| {
        assert Log(c, es)[..n] == frame[..n];
        ReadTorn(c, es[0], n);
      } else {
        var m := n - |frame|;
        CutReplaysComplete(c, es[1..], m);
        assert Log(c, es)[..n] == frame + Log(c, es[1..])[..m];
        ReadFirst(c, es[0], Log(c, es[1..])[..m]);
        assert es[..Complete(c, es, n)] == [es[0]] + es[1..][..Complete(c, es[1..], m)];
      }
    }
  }

  // ---- Replay ----

  /** What replay has reached: the map, the height, and the last committed height. */
  datatype Recovery = Recovery(kv: State, height: nat, committed: nat)

  function ApplyOp(kv: State, op: WalOp): State {
    match op
    case Set(k, v) => kv[k := v]
    case Delete(k) => kv - {k}
    case BeginBlock(_) => kv
    case CommitBlock(_, _) => kv
  }

  /** Records below the height already reached are skipped. */
  function ReplayOne(r: Recovery, e: WalEntry): Recovery {
    if e.height < r.height then r
    else
      match e.op
      case Set(_, _) => r.(kv := ApplyOp(r.kv, e.op))
      case Delete(_) => r.(kv := ApplyOp(r.kv, e.op))
      case BeginBlock(h) => r.(height := h)
      case CommitBlock(h, _) => r.(committed := h)
  }

  function ReplayAll(r: Recovery, es: seq<WalEntry>): Recovery {
    if es == [] then r else ReplayOne(ReplayAll(r, es[..|es| - 1]), es[|es| - 1])
  }

  /** An unfinished block rolls back the height, not the map. */
  function RollBack(r: Recovery): Recovery {
    if r.height > r.committed then r.(height := r.committed) else r
  }

  lemma RecordsStep(c: Codec, data: seq<Byte>, cursor: nat, len: nat)
    requires cursor + 4 <= |data| && len == FromLe(data[cursor..cursor + 4]) && cursor + 4 + len <= |data|
    ensures Records(c, data[cursor..]) ==
      Decoded(c, data[cursor + 4..cursor + 4 + len]) + Records(c, data[cursor + 4 + len..])
  {
    var rest := data[cursor..];
    assert rest[..4] == data[cursor..cursor + 4];
    assert rest[4..4 + len] == data[cursor + 4..cursor + 4 + len];
    assert rest[4 + len..] == data[cursor + 4 + len..];
  }

  lemma RecordsEnd(c: Codec, data: seq<Byte>, cursor: nat)
    requires cursor <= |data|
    requires cursor + 4 > |data| || cursor + 4 + FromLe(data[cursor..cursor + 4]) > |data|
    ensures Records(c, data[cursor..]) == []
  {
    if cursor + 4 <= |data| { assert data[cursor..][..4] == data[cursor..cursor + 4]; }
  }

  lemma ReplayMore(r: Recovery, es: seq<WalEntry>, e: WalEntry)
    ensures ReplayAll(r, es + [e]) == ReplayOne(ReplayAll(r, es), e)
  {
    assert (es + [e])[..|es|] == es;
  }

  lemma ReplayDecoded(c: Codec, start: Recovery, done: seq<WalEntry>, body: seq<Byte>)
    ensures ReplayAll(start, done + Decoded(c, body)) ==
      match c.decode(body) case Some(e) => ReplayOne(ReplayAll(start, done), e) case None => ReplayAll(start, done)
  {
    match c.decode(body) {
      case Some(e) => ReplayMore(start, done, e);
      case None => assert done + [] == done;
    }
  }

  /** The record at the cursor, if it is complete, and where the next one begins. */
  method NextRecord(c: Codec, data: seq<Byte>, cursor: nat) returns (body: Option<seq<Byte>>, next: nat)
    requires cursor <= |data|
    ensures body.None? ==> Records(c, data[cursor..]) == []
    ensures body.Some? ==>
      cursor < next <= |data| && Records(c, data[cursor..]) == Decoded(c, body.value) + Records(c, data[next..])
  {
    if cursor + 4 > |data| {
      RecordsEnd(c, data, cursor);
      return None, cursor;
    }
    var len := FromLe(data[cursor..cursor + 4]);
    if cursor + 4 + len > |data| {
      RecordsEnd(c, data, cursor);
      return None, cursor;
    }
    RecordsStep(c, data, cursor, len);
    return Some(data[cursor + 4..cursor + 4 + len]), cursor + 4 + len;
  }

  lemma ReplayedMore(all: seq<WalEntry>, done: seq<WalEntry>, here: seq<WalEntry>, rest: seq<WalEntry>)
    requires all == done + (here + rest)
    ensures all == (done + here) + rest
  {
    assert done + (here + rest) == (done + here) + rest;
  }

  /** The loop over the log: read a record, replay it, move the cursor. */
  method ReplayWal(c: Codec, data: seq<Byte>, kv0: State, height0: nat) returns (r: Recovery)
    ensures r == RollBack(ReplayAll(Recovery(kv0, height0, height0), Records(c, data)))
  {
    r := Recovery(kv0, height0, height0);
    ghost var start, done := r, [];
    var cursor := 0;
    assert data[0..] == data && [] + Records(c, data) == Records(c, data);
    var body, next := NextRecord(c, data, cursor);
    while body.Some?
      invariant 0 <= cursor <= |data|
      invariant Records(c, data) == done + Records(c, data[cursor..])
      invariant r == ReplayAll(start, done)
      invariant body.None? ==> Records(c, data[cursor..]) == []
      invariant body.Some? ==>
        cursor < next <= |data| && Records(c, data[cursor..]) == Decoded(c, body.value) + Records(c, data[next..])
      decreases |data| - cursor, if body.Some? then 1 else 0
    {
      ReplayDecoded(c, start, done, body.value);
      ReplayedMore(Records(c, data), done, Decoded(c, body.value), Records(c, data[next..]));
      match c.decode(body.value) {
        case Some(e) => r := ReplayEntry(r, e);
        case None =>
      }
      done := done + Decoded(c, body.value);
      cursor := next;
      body, next := NextRecord(c, data, cursor);
    }
    assert done + [] == done;
    if r.height > r.committed {
      r := r.(height := r.committed);
    }
  }

  method ReplayEntry(r0: Recovery, e: WalEntry) returns (r: Recovery)
    ensures r == ReplayOne(r0, e)
  {
    r := r0;
    if e.height >= r.height {
      match e.op {
        case Set(k, v) => r := r.(kv := r.kv[k := v]);
        case Delete(k) => r := r.(kv := r.kv - {k});
        case BeginBlock(h) => r := r.(height := h);
        case CommitBlock(h, _) => r := r.(committed := h);
      }
    }
  }
}
