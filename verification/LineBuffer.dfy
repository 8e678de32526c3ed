/** The client side of an Electrum session: bytes arrive in reads of any size, and each read is drained
    line by line, broadcasts before everything else. */
module LineBuffer {
  import opened Prelude

  type line = seq<byte>

  const NEWLINE: byte := 0x0a

  /** The newline-terminated lines of a buffer, in order. */
  function Lines(buf: seq<byte>): seq<line> {
    LinesFrom(buf, [])
  }

  /** The lines of buf when partial is the start of its first line. */
  function LinesFrom(buf: seq<byte>, partial: line): seq<line> {
    if buf == [] then []
    else if buf[0] == NEWLINE then [partial] + LinesFrom(buf[1..], [])
    else LinesFrom(buf[1..], partial + [buf[0]])
  }

  /** What follows the last newline. */
  function Tail(buf: seq<byte>): seq<byte> {
    TailFrom(buf, [])
  }

  function TailFrom(buf: seq<byte>, partial: line): seq<byte> {
    if buf == [] then partial
    else if buf[0] == NEWLINE then TailFrom(buf[1..], [])
    else TailFrom(buf[1..], partial + [buf[0]])
  }

  /** The buffer with these lines and this tail. */
  function Joined(lines: seq<line>, tail: seq<byte>): seq<byte> {
    if lines == [] then tail else lines[0] + [NEWLINE] + Joined(lines[1..], tail)
  }

  /** The order in which a drained buffer is processed. */
  function DrainOrder(lines: seq<line>, isBroadcast: line -> bool): seq<line> {
    Filter(lines, isBroadcast) + Filter(lines, l => !isBroadcast(l))
  }

  // ----- lines and reads

  lemma {:induction false} LinesOfLine(l: line, partial: line, rest: seq<byte>)
    requires NEWLINE !in l
    ensures LinesFrom(l + [NEWLINE] + rest, partial) == [partial + l] + LinesFrom(rest, [])
    ensures TailFrom(l + [NEWLINE] + rest, partial) == TailFrom(rest, [])
  {
    var buf := l + [NEWLINE] + rest;
    if l == [] {
      assert buf[1..] == rest && partial + l == partial;
    } else {
      LinesOfLine(l[1..], partial + [l[0]], rest);
      assert buf[1..] == l[1..] + [NEWLINE] + rest;
      assert partial + [l[0]] + l[1..] == partial + l;
    }
  }

  lemma {:induction false} LinesOfTail(tail: seq<byte>, partial: line)
    requires NEWLINE !in tail
    ensures LinesFrom(tail, partial) == [] && TailFrom(tail, partial) == partial + tail
  {
    if tail != [] {
      LinesOfTail(tail[1..], partial + [tail[0]]);
      assert partial + [tail[0]] + tail[1..] == partial + tail;
    } else {
      assert partial + tail == partial;
    }
  }

  lemma {:induction false} JoinedOfLines(buf: seq<byte>, partial: line)
    requires NEWLINE !in partial
    ensures Joined(LinesFrom(buf, partial), TailFrom(buf, partial)) == partial + buf
    ensures NEWLINE !in TailFrom(buf, partial) && forall l <- LinesFrom(buf, partial) :: NEWLINE !in l
  {
    if buf == [] {
    } else if buf[0] == NEWLINE {
      JoinedOfLines(buf[1..], []);
      var lines := LinesFrom(buf[1..], []);
      assert ([partial] + lines)[1..] == lines;
      assert partial + [NEWLINE] + ([] + buf[1..]) == partial + buf;
    } else {
      JoinedOfLines(buf[1..], partial + [buf[0]]);
      assert partial + [buf[0]] + buf[1..] == partial + buf;
    }
  }

  /** What arrives later only completes the tail. */
  lemma {:induction false} LinesOfAppended(buf: seq<byte>, partial: line, more: seq<byte>)
    ensures LinesFrom(buf + more, partial) == LinesFrom(buf, partial) + LinesFrom(more, TailFrom(buf, partial))
    ensures TailFrom(buf + more, partial) == TailFrom(more, TailFrom(buf, partial))
  {
    if buf == [] {
      assert buf + more == more;
    } else {
      assert (buf + more)[1..] == buf[1..] + more;
      if buf[0] == NEWLINE {
        LinesOfAppended(buf[1..], [], more);
      } else {
        LinesOfAppended(buf[1..], partial + [buf[0]], more);
      }
    }
  }

  lemma {:induction false} TailIsPartial(partial: line, more: seq<byte>)
    requires NEWLINE !in partial
    ensures Lines(partial + more) == LinesFrom(more, partial) && Tail(partial + more) == TailFrom(more, partial)
  {
    LinesOfAppended(partial, [], more);
    LinesOfTail(partial, []);
    assert [] + partial == partial;
  }

  // ----- the session buffer

  class ClientBuffer {
    var buf: seq<byte>

    constructor ()
      ensures buf == []
    {
      buf := [];
    }

    /** One read_buf. */
    method Receive(chunk: seq<byte>)
      modifies this
      ensures buf == old(buf) + chunk
    {
      buf := buf + chunk;
    }

    /** pop_client_line: the first broadcast line, or else the first line, is cut out of the buffer. */
    method PopClientLine(isBroadcast: line -> bool) returns (r: Option<line>)
      modifies this
      ensures r.None? <==> Lines(old(buf)) == []
      ensures r.None? ==> buf == old(buf)
      ensures r.Some? ==> var pick := Picked(Lines(old(buf)), isBroadcast);
        && pick < |Lines(old(buf))| && r.value == Lines(old(buf))[pick]
        && Lines(buf) == Without(Lines(old(buf)), pick) && Tail(buf) == Tail(old(buf))
        && |buf| < |old(buf)|
    {
      var ranges := LineRanges(buf);
      if ranges == [] {
        return None;
      }
      var pick := 0;
      var i := 0;
      while i < |ranges|
        invariant i <= |ranges| && pick == 0
        invariant forall k :: 0 <= k < i ==> !isBroadcast(buf[ranges[k].0..ranges[k].1])
      {
        if isBroadcast(buf[ranges[i].0..ranges[i].1]) {
          pick := i;
          break;
        }
        i := i + 1;
      }
      PickedIs(Lines(buf), isBroadcast, pick, i);
      var (s, e) := ranges[pick];
      r := Some(buf[s..e]);
      CutLine(buf, ranges, pick);
      buf := buf[..s] + buf[e + 1..];
    }
  }

  /** The index of the first broadcast line, or 0. */
  function Picked(lines: seq<line>, isBroadcast: line -> bool): nat {
    if FirstBroadcast(lines, isBroadcast) < |lines| then FirstBroadcast(lines, isBroadcast) else 0
  }

  function FirstBroadcast(lines: seq<line>, isBroadcast: line -> bool): (k: nat)
    ensures k <= |lines|
    ensures forall j :: 0 <= j < k ==> !isBroadcast(lines[j])
    ensures k < |lines| ==> isBroadcast(lines[k])
  {
    if lines == [] || isBroadcast(lines[0]) then 0 else 1 + FirstBroadcast(lines[1..], isBroadcast)
  }

  function Without<T>(xs: seq<T>, k: nat): seq<T>
    requires k < |xs|
  {
    xs[..k] + xs[k + 1..]
  }

  lemma PickedIs(lines: seq<line>, isBroadcast: line -> bool, pick: nat, i: nat)
    requires i <= |lines| && forall k :: 0 <= k < i ==> !isBroadcast(lines[k])
    requires if i < |lines| then pick == i && isBroadcast(lines[i]) else pick == 0
    ensures Picked(lines, isBroadcast) == pick
  {
  }

  /** The line ranges of a buffer: where each line starts and where its newline is. */
  ghost predicate AreRanges(buf: seq<byte>, ranges: seq<(nat, nat)>, lines: seq<line>) {
    && |ranges| == |lines|
    && forall k :: 0 <= k < |ranges| ==>
      && ranges[k].0 <= ranges[k].1 < |buf| && buf[ranges[k].1] == NEWLINE
      && buf[ranges[k].0..ranges[k].1] == lines[k]
      && Lines(buf[..ranges[k].0]) == lines[..k] && Tail(buf[..ranges[k].0]) == []
  }

  method LineRanges(buf: seq<byte>) returns (ranges: seq<(nat, nat)>)
    ensures AreRanges(buf, ranges, Lines(buf))
  {
    ranges := [];
    var start := 0;
    for i := 0 to |buf|
      invariant start <= i && AreRanges(buf, ranges, Lines(buf[..i]))
      invariant NEWLINE !in buf[start..i]
      invariant Lines(buf[..start]) == Lines(buf[..i]) && Tail(buf[..start]) == []
    {
      LineEnds(buf, start, i);
      if buf[i] == NEWLINE {
        ranges := ranges + [(start, i)];
        start := i + 1;
      }
    }
    assert buf[..|buf|] == buf;
  }

  lemma LineEnds(buf: seq<byte>, start: nat, i: nat)
    requires start <= i < |buf| && NEWLINE !in buf[start..i]
    requires Tail(buf[..start]) == []
    ensures buf[i] == NEWLINE ==>
      Lines(buf[..i + 1]) == Lines(buf[..start]) + [buf[start..i]] && Tail(buf[..i + 1]) == []
    ensures buf[i] != NEWLINE ==> Lines(buf[..i + 1]) == Lines(buf[..start]) && NEWLINE !in buf[start..i + 1]
  {
    var l := buf[start..i];
    assert buf[..i + 1] == buf[..start] + (l + [buf[i]]);
    LinesOfAppended(buf[..start], [], l + [buf[i]]);
    if buf[i] == NEWLINE {
      LinesOfLine(l, [], []);
      assert l + [NEWLINE] + [] == l + [NEWLINE] && [] + l == l;
    } else {
      LinesOfTail(l + [buf[i]], []);
    }
  }

  /** Cutting out one line leaves the others and the tail. */
  lemma CutLine(buf: seq<byte>, ranges: seq<(nat, nat)>, pick: nat)
    requires AreRanges(buf, ranges, Lines(buf)) && pick < |ranges|
    ensures var cut := buf[..ranges[pick].0] + buf[ranges[pick].1 + 1..];
            Lines(cut) == Without(Lines(buf), pick) && Tail(cut) == Tail(buf)
  {
    hide LinesFrom, TailFrom, Lines, Tail;
    var (s, e) := ranges[pick];
    JoinedOfLines(buf, []);
    LinesAre(buf);
    assert Lines(buf)[pick] in Lines(buf);
    CutParts(buf[..s], buf[s..e], buf[e + 1..]);
    assert buf == buf[..s] + (buf[s..e] + [NEWLINE] + buf[e + 1..]);
    var lines := Lines(buf);
    assert lines == lines[..pick] + ([lines[pick]] + Lines(buf[e + 1..]));
    assert lines[pick + 1..] == Lines(buf[e + 1..]);
  }

  lemma LinesAre(buf: seq<byte>)
    ensures Lines(buf) == LinesFrom(buf, []) && Tail(buf) == TailFrom(buf, [])
  {
  }

  lemma CutParts(head: seq<byte>, l: line, rest: seq<byte>)
    requires Tail(head) == [] && NEWLINE !in l
    ensures Lines(head + (l + [NEWLINE] + rest)) == Lines(head) + ([l] + Lines(rest))
    ensures Tail(head + (l + [NEWLINE] + rest)) == Tail(rest)
    ensures Lines(head + rest) == Lines(head) + Lines(rest) && Tail(head + rest) == Tail(rest)
  {
    hide LinesFrom, TailFrom;
    LinesOfAppended(head, [], l + [NEWLINE] + rest);
    LinesOfAppended(head, [], rest);
    LinesOfLine(l, [], rest);
    assert [] + l == l;
  }

  // ----- drains and whole sessions

  /** Taking the picked line first and draining the rest is draining the whole. */
  lemma DrainOrderStep(lines: seq<line>, isBroadcast: line -> bool)
    requires lines != []
    ensures var pick := Picked(lines, isBroadcast);
            pick < |lines| && DrainOrder(lines, isBroadcast) == [lines[pick]] + DrainOrder(Without(lines, pick), isBroadcast)
  {
    hide Filter, FirstBroadcast;
    var pick := Picked(lines, isBroadcast);
    var before, after := lines[..pick], lines[pick + 1..];
    var other := (l: line) => !isBroadcast(l);
    assert lines == before + ([lines[pick]] + after);
    forall p: line -> bool
      ensures Filter(lines, p) == Filter(before, p) + (Filter([lines[pick]], p) + Filter(after, p))
      ensures Filter(before + after, p) == Filter(before, p) + Filter(after, p)
    {
      FilterAppend(before, [lines[pick]] + after, p);
      FilterAppend([lines[pick]], after, p);
      FilterAppend(before, after, p);
    }
    FilterNone(before, isBroadcast);
    if isBroadcast(lines[pick]) {
      FilterAll([lines[pick]], isBroadcast);
      FilterNone([lines[pick]], other);
    } else {
      FilterNone([lines[pick]], isBroadcast);
      FilterNone(after, isBroadcast);
      FilterAll([lines[pick]], other);
      assert before == [];
      FilterNone(before, other);
    }
  }

  /** The inner loop of handle_connection: pop until nothing is left to pop. */
  method Drain(client: ClientBuffer, isBroadcast: line -> bool) returns (processed: seq<line>)
    modifies client
    ensures processed == DrainOrder(Lines(old(client.buf)), isBroadcast)
    ensures client.buf == Tail(old(client.buf))
  {
    hide DrainOrder, Lines, Tail, Picked;
    processed := [];
    ghost var whole := DrainOrder(Lines(client.buf), isBroadcast);
    while true
      invariant processed + DrainOrder(Lines(client.buf), isBroadcast) == whole
      invariant Tail(client.buf) == Tail(old(client.buf))
      decreases |client.buf|
    {
      ghost var lines := Lines(client.buf);
      var popped := client.PopClientLine(isBroadcast);
      if popped.None? {
        NothingToDrain(client.buf, isBroadcast);
        break;
      }
      DrainOrderStep(lines, isBroadcast);
      processed := processed + [popped.value];
    }
  }

  lemma NothingToDrain(buf: seq<byte>, isBroadcast: line -> bool)
    requires Lines(buf) == []
    ensures DrainOrder(Lines(buf), isBroadcast) == [] && Tail(buf) == buf
  {
    JoinedOfLines(buf, []);
  }

  function Concat<T>(xss: seq<seq<T>>): seq<T> {
    if xss == [] then [] else Concat(xss[..|xss| - 1]) + xss[|xss| - 1]
  }

  /** handle_connection over a list of chunks: what is processed after each of them. */
  method Session(chunks: seq<seq<byte>>, isBroadcast: line -> bool) returns (drains: seq<seq<line>>, client: ClientBuffer)
    ensures fresh(client) && |drains| == |chunks|
    ensures client.buf == Tail(Concat(chunks))
    ensures forall k :: 0 <= k < |chunks| ==> drains[k] == DrainOrder(NewLines(chunks, k), isBroadcast)
    ensures forall k :: 0 <= k < |chunks| ==> BroadcastsFirst(drains[k], isBroadcast)
  {
    hide DrainOrder, Lines, Tail, BroadcastsFirst;
    client := new ClientBuffer();
    drains := [];
    assert Tail([]) == [] by { NoBytes(); }
    for i := 0 to |chunks|
      invariant |drains| == i && client.buf == Tail(Concat(chunks[..i])) && fresh(client)
      invariant forall k :: 0 <= k < i ==> drains[k] == DrainOrder(NewLines(chunks, k), isBroadcast)
    {
      assert chunks[..i + 1][..i] == chunks[..i];
      TailOfRead(Concat(chunks[..i]), chunks[i]);
      client.Receive(chunks[i]);
      var processed := Drain(client, isBroadcast);
      drains := drains + [processed];
    }
    assert chunks[..|chunks|] == chunks;
    forall k | 0 <= k < |chunks| ensures BroadcastsFirst(drains[k], isBroadcast) {
      DrainPutsBroadcastsFirst(NewLines(chunks, k), isBroadcast);
    }
  }

  /** No broadcast comes after another line. */
  predicate BroadcastsFirst(lines: seq<line>, isBroadcast: line -> bool) {
    forall i, j :: 0 <= i < j < |lines| && isBroadcast(lines[j]) ==> isBroadcast(lines[i])
  }

  lemma DrainPutsBroadcastsFirst(lines: seq<line>, isBroadcast: line -> bool)
    ensures BroadcastsFirst(DrainOrder(lines, isBroadcast), isBroadcast)
  {
    FilterElements(lines, isBroadcast);
    FilterElements(lines, l => !isBroadcast(l));
  }

  /** What the lines of a stream are: the stretches between its bytes 0x0a, whatever they hold, and the rest behind the last. */
  lemma LinesAreStretches(buf: seq<byte>)
    ensures (0x0a as byte) !in Tail(buf) && forall l <- Lines(buf) :: (0x0a as byte) !in l
    ensures buf == Concat(Terminated(Lines(buf))) + Tail(buf)
  {
    JoinedOfLines(buf, []);
    assert [] + buf == buf;
    JoinedIs(Lines(buf), Tail(buf));
  }

  function Terminated(lines: seq<line>): seq<line> {
    seq(|lines|, i requires 0 <= i < |lines| => lines[i] + [0x0a])
  }

  lemma {:induction false} JoinedIs(lines: seq<line>, tail: seq<byte>)
    ensures Joined(lines, tail) == Concat(Terminated(lines)) + tail
  {
    if lines != [] {
      JoinedIs(lines[1..], tail);
      assert Terminated(lines) == [lines[0] + [0x0a]] + Terminated(lines[1..]);
      ConcatFirst(lines[0] + [0x0a], Terminated(lines[1..]));
    }
  }

  lemma {:induction false} ConcatFirst<T>(first: seq<T>, rest: seq<seq<T>>)
    ensures Concat([first] + rest) == first + Concat(rest)
  {
    if rest == [] {
      assert [first] + rest == [first] && [first][..0] == [];
    } else {
      ConcatFirst(first, rest[..|rest| - 1]);
      assert ([first] + rest)[..|rest|] == [first] + rest[..|rest| - 1];
    }
  }

  lemma NoBytes()
    ensures Tail([]) == [] && Lines([]) == []
  {
  }

  lemma TailOfRead(sofar: seq<byte>, chunk: seq<byte>)
    ensures Lines(sofar + chunk) == Lines(sofar) + Lines(Tail(sofar) + chunk)
    ensures Tail(sofar + chunk) == Tail(Tail(sofar) + chunk)
  {
    LinesOfAppended(sofar, [], chunk);
    JoinedOfLines(sofar, []);
    TailIsPartial(Tail(sofar), chunk);
  }

  /** The lines that read k completes. */
  ghost function NewLines(chunks: seq<seq<byte>>, k: nat): seq<line>
    requires k < |chunks|
  {
    Lines(Tail(Concat(chunks[..k])) + chunks[k])
  }

  /** All lines of a session, read by read. */
  ghost function AllNewLines(chunks: seq<seq<byte>>, n: nat): seq<line>
    requires n <= |chunks|
  {
    if n == 0 then [] else AllNewLines(chunks, n - 1) + NewLines(chunks, n - 1)
  }

  /** However the stream is cut into reads, the reads complete exactly its lines, in order. */
  lemma {:induction false} ReadsCompleteLines(chunks: seq<seq<byte>>, n: nat)
    requires n <= |chunks|
    ensures AllNewLines(chunks, n) == Lines(Concat(chunks[..n]))
  {
    hide Lines, Tail;
    if n > 0 {
      ReadsCompleteLines(chunks, n - 1);
      assert chunks[..n][..n - 1] == chunks[..n - 1];
      TailOfRead(Concat(chunks[..n - 1]), chunks[n - 1]);
    } else {
      NoBytes();
    }
  }

  /** What a session processes, read by read. */
  ghost function Processed(chunks: seq<seq<byte>>, isBroadcast: line -> bool, n: nat): seq<line>
    requires n <= |chunks|
  {
    if n == 0 then [] else Processed(chunks, isBroadcast, n - 1) + DrainOrder(NewLines(chunks, n - 1), isBroadcast)
  }

  lemma FilterOfDrainOrder(lines: seq<line>, isBroadcast: line -> bool)
    ensures Filter(DrainOrder(lines, isBroadcast), isBroadcast) == Filter(lines, isBroadcast)
    ensures Filter(DrainOrder(lines, isBroadcast), l => !isBroadcast(l)) == Filter(lines, l => !isBroadcast(l))
    ensures multiset(DrainOrder(lines, isBroadcast)) == multiset(lines)
  {
    var other := (l: line) => !isBroadcast(l);
    var b, o := Filter(lines, isBroadcast), Filter(lines, other);
    FilterAppend(b, o, isBroadcast);
    FilterAppend(b, o, other);
    FilterElements(lines, isBroadcast);
    FilterElements(lines, other);
    FilterAll(b, isBroadcast);
    FilterAll(o, other);
    FilterNone(b, other);
    FilterNone(o, isBroadcast);
    FilterPartition(lines, isBroadcast);
  }

  lemma {:induction false} FilterPartition(lines: seq<line>, p: line -> bool)
    ensures multiset(Filter(lines, p) + Filter(lines, l => !p(l))) == multiset(lines)
  {
    if lines != [] {
      FilterPartition(lines[1..], p);
      assert lines == [lines[0]] + lines[1..];
    }
  }

  /** For every way of cutting a stream into chunks: every line is processed exactly once, broadcasts in
      arrival order, the other lines in arrival order, and the unterminated tail stays behind (Session). */
  lemma {:induction false} SessionProcessesEveryLine(chunks: seq<seq<byte>>, isBroadcast: line -> bool, n: nat)
    requires n <= |chunks|
    ensures var done, lines := Processed(chunks, isBroadcast, n), Lines(Concat(chunks[..n]));
            && multiset(done) == multiset(lines)
            && Filter(done, isBroadcast) == Filter(lines, isBroadcast)
            && Filter(done, l => !isBroadcast(l)) == Filter(lines, l => !isBroadcast(l))
  {
    hide Lines, Tail, DrainOrder;
    ReadsCompleteLines(chunks, n);
    if n > 0 {
      ReadsCompleteLines(chunks, n - 1);
      SessionProcessesEveryLine(chunks, isBroadcast, n - 1);
      var other := (l: line) => !isBroadcast(l);
      var done, lines := Processed(chunks, isBroadcast, n - 1), AllNewLines(chunks, n - 1);
      var now := NewLines(chunks, n - 1);
      FilterOfDrainOrder(now, isBroadcast);
      FilterAppend(done, DrainOrder(now, isBroadcast), isBroadcast);
      FilterAppend(done, DrainOrder(now, isBroadcast), other);
      FilterAppend(lines, now, isBroadcast);
      FilterAppend(lines, now, other);
    }
  }
}
