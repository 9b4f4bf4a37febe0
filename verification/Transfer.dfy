/**
 The transfer loops of RETR, STOR and APPE in stream mode. Every system call
 may deliver less than it was asked for, or fail, as an arbitrary script has it.
 Time is counted in milliseconds since the transfer started.
 */
module Transfer {
  import opened Text

  // ----- Throttling -----

  function Allowance(rate: int, elapsed: int): int {
    rate * elapsed / 1000
  }

  // How long the transfer sleeps before it goes on.
  function Delay(rate: int, total: nat, elapsed: int): (delay: nat)
    ensures rate > 0 && elapsed > 0 && total > Allowance(rate, elapsed) ==>
              && 1000 * total < rate * (elapsed + delay + 1)
              && rate * (elapsed + delay) < 1000 * (total + 1)
  {
    if rate <= 0 || elapsed <= 0 || total <= Allowance(rate, elapsed) then 0
    else
      var excess := total - Allowance(rate, elapsed);
      DelayArithmetic(rate, total, elapsed);
      excess * 1000 / rate
  }

  lemma DelayArithmetic(rate: int, total: nat, elapsed: int)
    requires rate > 0 && elapsed > 0 && total > Allowance(rate, elapsed)
    ensures (total - Allowance(rate, elapsed)) * 1000 / rate >= 0
    ensures 1000 * total < rate * (elapsed + (total - Allowance(rate, elapsed)) * 1000 / rate + 1)
    ensures rate * (elapsed + (total - Allowance(rate, elapsed)) * 1000 / rate) < 1000 * (total + 1)
  {
    var allowance := Allowance(rate, elapsed);
    var scaled := (total - allowance) * 1000;
    var delay := scaled / rate;
    assert scaled == rate * delay + scaled % rate;
    var product := rate * elapsed;
    assert product == 1000 * (product / 1000) + product % 1000;
    assert rate * (elapsed + delay) == product + rate * delay;
    assert rate * (elapsed + delay + 1) == product + rate * delay + rate;
    assert delay < 0 ==> rate * delay <= -rate;
  }

  // One chunk: the clock when the throttle looked, the clock when the chunk
  // went out, and the running total that must stay under the rate line.
  datatype Mark = Mark(measured: nat, start: nat, total: nat)

  // The time that passes around the i-th chunk whatever the server does: from
  // the chunk before it to its throttle, and beyond the sleep it asks for.
  datatype Tick = Tick(gap: nat, over: nat)

  type Clock = nat -> Tick

  // Until the clock shows a full millisecond nothing is throttled.
  predicate UnderRateLine(rate: int, m: Mark) {
    rate > 0 && m.measured > 0 ==> 1000 * m.total < rate * (m.start + 1)
  }

  predicate Paced(rate: int, marks: seq<Mark>) {
    forall i :: 0 <= i < |marks| ==> UnderRateLine(rate, marks[i])
  }

  // When the chunk before the i-th went out.
  function Before(marks: seq<Mark>, i: nat): nat
    requires i <= |marks|
  {
    if i == 0 then 0 else marks[i - 1].start
  }

  // The mark of a chunk that sleeps exactly as long as it has to.
  function MarkOf(rate: int, total: nat, previous: nat, t: Tick): Mark {
    var measured := previous + t.gap;
    Mark(measured, measured + Delay(rate, total, measured) + t.over, total)
  }

  predicate ScheduledAt(rate: int, clock: Clock, totals: seq<nat>, marks: seq<Mark>, i: nat)
    requires i < |marks| == |totals|
  {
    marks[i] == MarkOf(rate, totals[i], Before(marks, i), clock(i))
  }

  // Every chunk is throttled, at its own running total.
  predicate Scheduled(rate: int, clock: Clock, totals: seq<nat>, marks: seq<Mark>) {
    && |marks| == |totals|
    && forall i :: 0 <= i < |marks| ==> ScheduledAt(rate, clock, totals, marks, i)
  }

  lemma ScheduleStep(rate: int, clock: Clock, totals: seq<nat>, marks: seq<Mark>, total: nat)
    requires Scheduled(rate, clock, totals, marks)
    ensures var mark := MarkOf(rate, total, Before(marks, |marks|), clock(|marks|));
      Scheduled(rate, clock, totals + [total], marks + [mark])
  {
    hide MarkOf;
    var longer := marks + [MarkOf(rate, total, Before(marks, |marks|), clock(|marks|))];
    forall i | 0 <= i < |longer| ensures ScheduledAt(rate, clock, totals + [total], longer, i) {
      if i < |marks| {
        assert ScheduledAt(rate, clock, totals, marks, i);
      }
    }
  }

  lemma MarkIsPaced(rate: int, total: nat, previous: nat, t: Tick)
    ensures UnderRateLine(rate, MarkOf(rate, total, previous, t))
  {
    hide Delay;
    var measured := previous + t.gap;
    var delay := Delay(rate, total, measured);
    if rate > 0 && measured > 0 {
      DelaySuffices(rate, total, measured);
      RateLineLater(rate, total, measured + delay, measured + delay + t.over);
    }
  }

  lemma DelaySuffices(rate: int, total: nat, elapsed: nat)
    requires rate > 0 && elapsed > 0
    ensures 1000 * total < rate * (elapsed + Delay(rate, total, elapsed) + 1)
  {
    if total <= Allowance(rate, elapsed) {
      assert 1000 * total <= rate * elapsed;
      assert rate * (elapsed + 1) == rate * elapsed + rate;
    }
  }

  lemma ScheduledChunk(rate: int, clock: Clock, totals: seq<nat>, marks: seq<Mark>, i: nat)
    requires Scheduled(rate, clock, totals, marks) && i < |marks|
    ensures UnderRateLine(rate, marks[i]) && marks[i].total == totals[i]
    ensures Before(marks, i) <= marks[i].measured <= marks[i].start
  {
    hide Delay, UnderRateLine;
    assert ScheduledAt(rate, clock, totals, marks, i);
    MarkIsPaced(rate, totals[i], Before(marks, i), clock(i));
  }

  lemma {:induction false} ScheduledInOrder(
      rate: int, clock: Clock, totals: seq<nat>, marks: seq<Mark>, i: nat, j: nat)
    requires Scheduled(rate, clock, totals, marks) && i < j < |marks|
    ensures marks[i].start <= marks[j].measured
  {
    hide Scheduled;
    ScheduledChunk(rate, clock, totals, marks, j);
    if i < j - 1 {
      ScheduledChunk(rate, clock, totals, marks, j - 1);
      ScheduledInOrder(rate, clock, totals, marks, i, j - 1);
    }
  }

  // So each chunk goes out under the rate line, and no earlier than the one
  // before it.
  lemma ScheduleIsPaced(rate: int, clock: Clock, totals: seq<nat>, marks: seq<Mark>)
    requires Scheduled(rate, clock, totals, marks)
    ensures Paced(rate, marks) && |marks| == |totals|
    ensures forall i :: 0 <= i < |marks| ==> marks[i].total == totals[i]
    ensures forall i, j :: 0 <= i < j < |marks| ==> marks[i].start <= marks[j].measured
  {
    assert |marks| == |totals|;
    hide Scheduled, UnderRateLine;
    forall i | 0 <= i < |marks| ensures UnderRateLine(rate, marks[i]) && marks[i].total == totals[i] {
      ScheduledChunk(rate, clock, totals, marks, i);
    }
    forall i, j | 0 <= i < j < |marks| ensures marks[i].start <= marks[j].measured {
      ScheduledInOrder(rate, clock, totals, marks, i, j);
    }
  }

  // Measures the time, sleeps if need be, and tells when the chunk may go.
  method Throttle(rate: int, total: nat, previous: nat, t: Tick) returns (mark: Mark)
    ensures mark == MarkOf(rate, total, previous, t)
    ensures UnderRateLine(rate, mark)
  {
    var now := previous + t.gap;
    var wake: nat := now;
    if rate > 0 {
      if now > 0 {
        if total > Allowance(rate, now) {
          wake := now + (total - Allowance(rate, now)) * 1000 / rate;
        }
      }
    }
    mark := Mark(now, wake + t.over, total);
    MarkIsPaced(rate, total, previous, t);
  }

  lemma RateLineLater(rate: int, total: nat, early: nat, late: nat)
    requires rate > 0 && early <= late
    requires 1000 * total < rate * (early + 1)
    ensures 1000 * total < rate * (late + 1)
  {
    assert rate * (early + 1) <= rate * (late + 1);
  }

  // ----- Download -----

  // What the system does in a download: how many bytes the i-th call is willing
  // to move, or a negative value for an error; and whether the file can be
  // mapped.
  datatype Kernel = Kernel(script: nat -> int, mapped: bool)

  // The result of the i-th call, asked to move at most `limit` bytes.
  function Moved(k: Kernel, i: nat, limit: nat): (n: int)
    ensures -1 <= n <= limit
  {
    if k.script(i) < 0 then -1 else if k.script(i) <= limit then k.script(i) else limit
  }

  // Every call moves all that a buffer can hold.
  ghost predicate Willing(k: Kernel, size: nat) {
    forall i: nat :: k.script(i) >= size
  }

  // Of the requests from number `first` on the last one is not met in full.
  predicate LastFallsShort(k: Kernel, first: nat, asked: seq<nat>) {
    first < |asked| && k.script(|asked| - 1) < asked[|asked| - 1]
  }

  function Sum(sizes: seq<nat>): nat {
    if sizes == [] then 0 else Sum(sizes[..|sizes| - 1]) + sizes[|sizes| - 1]
  }

  // The running total at the start of each chunk.
  function Totals(sizes: seq<nat>): seq<nat> {
    seq(|sizes|, i requires 0 <= i < |sizes| => Sum(sizes[..i]))
  }

  // A download so far: the bytes that each chunk has sent, its mark, and what
  // every system call was asked to move.
  datatype Log = Log(sizes: seq<nat>, marks: seq<Mark>, asked: seq<nat>)

  // No chunk and no request exceeds the buffer, and each chunk has been
  // throttled at the running total of those before it.
  predicate Logged(rate: int, clock: Clock, size: nat, log: Log) {
    && (forall i :: 0 <= i < |log.asked| ==> log.asked[i] <= size)
    && (forall i :: 0 <= i < |log.sizes| ==> log.sizes[i] <= size)
    && Scheduled(rate, clock, Totals(log.sizes), log.marks)
  }

  function Record(log: Log, mark: Mark, n: nat): Log {
    log.(sizes := log.sizes + [n], marks := log.marks + [mark])
  }

  function Ask(log: Log, limit: nat): Log {
    log.(asked := log.asked + [limit])
  }

  lemma LogStep(rate: int, clock: Clock, size: nat, log: Log, n: nat)
    requires Logged(rate, clock, size, log) && n <= size
    ensures var mark := MarkOf(rate, Sum(log.sizes), Before(log.marks, |log.marks|), clock(|log.marks|));
      Logged(rate, clock, size, Record(log, mark, n))
    ensures Sum(log.sizes + [n]) == Sum(log.sizes) + n
  {
    hide MarkOf, Sum, Before;
    TotalsStep(log.sizes, n);
    ScheduleStep(rate, clock, Totals(log.sizes), log.marks, Sum(log.sizes));
  }

  lemma TotalsStep(sizes: seq<nat>, n: nat)
    ensures Totals(sizes + [n]) == Totals(sizes) + [Sum(sizes)]
    ensures Sum(sizes + [n]) == Sum(sizes) + n
  {
    var longer := sizes + [n];
    assert longer[..|sizes|] == sizes;
    assert forall i :: 0 <= i <= |sizes| ==> longer[..i] == sizes[..i];
  }

  lemma NothingLogged(rate: int, clock: Clock, size: nat)
    ensures Logged(rate, clock, size, Log([], [], [])) && Sum([]) == 0
  {
  }

  ghost predicate SendsFrom<T>(file: seq<T>, offset: nat, wire: seq<T>) {
    offset + |wire| <= |file| && wire == file[offset..offset + |wire|]
  }

  lemma SendMore<T>(file: seq<T>, offset: nat, wire: seq<T>, n: nat)
    requires SendsFrom(file, offset, wire)
    requires offset + |wire| + n <= |file|
    ensures SendsFrom(file, offset, wire + file[offset + |wire|..offset + |wire| + n])
  {
    assert file[offset..offset + |wire|] + file[offset + |wire|..offset + |wire| + n]
        == file[offset..offset + |wire| + n];
  }

  // What a stage adds to the download so far.
  ghost predicate Advances<T>(rate: int, clock: Clock, size: nat, log: Log, after: Log, wire: seq<T>) {
    && Logged(rate, clock, size, after)
    && log.sizes <= after.sizes && log.asked <= after.asked
    && Sum(after.sizes) == Sum(log.sizes) + |wire|
  }

  // One chunk of a loop that has sent `wire` since `log`: `n` bytes more.
  lemma Advance<T>(rate: int, clock: Clock, size: nat, log: Log, now: Log, wire: seq<T>, more: seq<T>)
    requires Advances(rate, clock, size, log, now, wire) && |more| <= size
    ensures var mark := MarkOf(rate, Sum(now.sizes), Before(now.marks, |now.marks|), clock(|now.marks|));
      Advances(rate, clock, size, log, Record(now, mark, |more|), wire + more)
  {
    hide Logged, Sum, MarkOf, Before;
    LogStep(rate, clock, size, now, |more|);
  }

  lemma AskStep<T>(rate: int, clock: Clock, size: nat, log: Log, now: Log, wire: seq<T>, limit: nat)
    requires Advances(rate, clock, size, log, now, wire) && limit <= size
    ensures Advances(rate, clock, size, log, Ask(now, limit), wire)
  {
    hide Scheduled, Sum, Totals;
  }

  method SendfileStage<T>(
      enabled: bool, file: seq<T>, offset: nat, size: nat, rate: int, clock: Clock, kernel: Kernel, log: Log,
      before: nat)
    returns (wire: seq<T>, after: Log, total: nat)
    requires offset <= |file| && size > 0 && Logged(rate, clock, size, log) && before == Sum(log.sizes)
    ensures SendsFrom(file, offset, wire)
    ensures Advances(rate, clock, size, log, after, wire) && total == Sum(after.sizes)
    ensures !enabled ==> wire == [] && after == log
    ensures enabled && offset + |wire| < |file| ==> LastFallsShort(kernel, |log.asked|, after.asked)
  {
    hide Logged, MarkOf, Sum;
    wire, after, total := [], log, before;
    if !enabled {
      return;
    }
    var remaining := |file| - offset;
    while remaining > 0
      invariant 0 <= remaining == |file| - offset - |wire|
      invariant SendsFrom(file, offset, wire)
      invariant Advances(rate, clock, size, log, after, wire) && total == Sum(after.sizes)
    {
      var mark := Throttle(rate, total, Before(after.marks, |after.marks|), clock(|after.marks|));
      var chunk := if size < remaining then size else remaining;
      var n := Moved(kernel, |after.asked|, chunk);
      AskStep(rate, clock, size, log, after, wire, chunk);
      after := Ask(after, chunk);
      if n <= 0 {
        Advance(rate, clock, size, log, after, wire, []);
        assert wire + [] == wire;
        after := Record(after, mark, 0);
        break;
      }
      SendMore(file, offset, wire, n);
      var sent := file[offset + |wire|..offset + |wire| + n];
      Advance(rate, clock, size, log, after, wire, sent);
      after := Record(after, mark, n);
      wire := wire + sent;
      total := total + n;
      remaining := remaining - n;
      if n < chunk {
        break;
      }
    }
  }

  // The mapping itself may fail, which leaves everything to the next stage.
  method MmapStage<T>(
      enabled: bool, file: seq<T>, offset: nat, size: nat, rate: int, clock: Clock, kernel: Kernel, log: Log,
      before: nat)
    returns (wire: seq<T>, after: Log, total: nat)
    requires offset <= |file| && size > 0 && Logged(rate, clock, size, log) && before == Sum(log.sizes)
    ensures SendsFrom(file, offset, wire)
    ensures Advances(rate, clock, size, log, after, wire) && total == Sum(after.sizes)
    ensures !enabled || !kernel.mapped ==> wire == [] && after == log
    ensures enabled && kernel.mapped && offset + |wire| < |file| ==> LastFallsShort(kernel, |log.asked|, after.asked)
  {
    hide Logged, MarkOf, Sum;
    wire, after, total := [], log, before;
    if !enabled || |file| == 0 || offset >= |file| || !kernel.mapped {
      return;
    }
    var remaining := |file| - offset;
    while remaining > 0
      invariant 0 <= remaining == |file| - offset - |wire|
      invariant SendsFrom(file, offset, wire)
      invariant Advances(rate, clock, size, log, after, wire) && total == Sum(after.sizes)
    {
      var mark := Throttle(rate, total, Before(after.marks, |after.marks|), clock(|after.marks|));
      var chunk := if size < remaining then size else remaining;
      var n := Moved(kernel, |after.asked|, chunk);
      AskStep(rate, clock, size, log, after, wire, chunk);
      after := Ask(after, chunk);
      if n <= 0 {
        Advance(rate, clock, size, log, after, wire, []);
        assert wire + [] == wire;
        after := Record(after, mark, 0);
        break;
      }
      SendMore(file, offset, wire, n);
      var sent := file[offset + |wire|..offset + |wire| + n];
      Advance(rate, clock, size, log, after, wire, sent);
      after := Record(after, mark, n);
      wire := wire + sent;
      total := total + n;
      remaining := remaining - n;
    }
  }

  // The read/send loop: a short read shrinks the chunk, a short send ends the
  // loop, since the file position has moved past what was sent.
  method ReadSendStage<T>(
      enabled: bool, file: seq<T>, offset: nat, size: nat, rate: int, clock: Clock, kernel: Kernel, log: Log,
      before: nat)
    returns (wire: seq<T>, after: Log, total: nat)
    requires offset <= |file| && size > 0 && Logged(rate, clock, size, log) && before == Sum(log.sizes)
    ensures SendsFrom(file, offset, wire)
    ensures Advances(rate, clock, size, log, after, wire) && total == Sum(after.sizes)
    ensures !enabled ==> wire == [] && after == log
    ensures enabled && offset + |wire| < |file| ==> LastFallsShort(kernel, |log.asked|, after.asked)
  {
    hide Logged, MarkOf, Sum;
    wire, after, total := [], log, before;
    if !enabled {
      return;
    }
    var position := offset;
    var remaining := |file| - offset;
    while remaining > 0
      invariant 0 <= remaining == |file| - offset - |wire|
      invariant position == offset + |wire|
      invariant SendsFrom(file, offset, wire)
      invariant Advances(rate, clock, size, log, after, wire) && total == Sum(after.sizes)
    {
      var mark := Throttle(rate, total, Before(after.marks, |after.marks|), clock(|after.marks|));
      var request := if size < remaining then size else remaining;
      var n := Moved(kernel, |after.asked|, request);
      AskStep(rate, clock, size, log, after, wire, request);
      after := Ask(after, request);
      if n <= 0 {
        Advance(rate, clock, size, log, after, wire, []);
        assert wire + [] == wire;
        after := Record(after, mark, 0);
        break;
      }
      var buffer := file[position..position + n];
      position := position + n;
      var accepted := Moved(kernel, |after.asked|, n);
      AskStep(rate, clock, size, log, after, wire, n);
      after := Ask(after, n);
      if accepted <= 0 {
        Advance(rate, clock, size, log, after, wire, []);
        assert wire + [] == wire;
        after := Record(after, mark, 0);
        break;
      }
      SendMore(file, offset, wire, accepted);
      assert buffer[..accepted] == file[offset + |wire|..offset + |wire| + accepted];
      Advance(rate, clock, size, log, after, wire, buffer[..accepted]);
      after := Record(after, mark, accepted);
      wire := wire + buffer[..accepted];
      total := total + accepted;
      remaining := remaining - accepted;
      if accepted < n {
        break;
      }
    }
  }

  // `OutOfBounds`: the mapped file would be read before its start.
  datatype Status = Finished | NothingLeft | SeekFailed | OutOfBounds

  // `bySendfile`, `byMmap` and `byRead` are the bytes each stage sent, `readFrom`
  // the number of calls made before the last stage.
  datatype Delivery<T> = Delivery(
    status: Status,
    wire: seq<T>,
    total: nat,
    ok: bool,
    bySendfile: nat,
    byMmap: nat,
    byRead: nat,
    log: Log,
    readFrom: nat)

  predicate Restarts(file: seq, resume: int) {
    0 <= resume <= |file| && (resume == 0 || resume < |file|)
  }

  // The byte counts the three stages can end with, for some results of the
  // system calls.
  predicate Possible(file: seq, resume: nat, useSendfile: bool, useMmap: bool, a: nat, m: nat, f: nat) {
    && resume + a + m <= |file| && resume + a + f <= |file|
    && (!useSendfile ==> a == 0)
    && (!useMmap ==> m == 0)
    && (f > 0 ==> resume + a + m < |file|)
  }

  // The last stage that ran got to the end of the file.
  predicate Completed(file: seq, resume: nat, a: nat, m: nat, f: nat) {
    resume + a + m == |file| || resume + a + f == |file|
  }

  // What the stages put on the wire together. The mmap stage leaves the offset
  // where it found it, so the read/send loop starts over from there.
  function Wire<T>(file: seq<T>, resume: nat, a: nat, m: nat, f: nat): seq<T>
    requires resume + a + m <= |file| && resume + a + f <= |file|
  {
    file[resume..resume + a] + file[resume + a..resume + a + m] + file[resume + a..resume + a + f]
  }

  lemma WireUnbroken<T>(file: seq<T>, resume: nat, a: nat, f: nat)
    requires resume + a + f <= |file|
    ensures Wire(file, resume, a, 0, f) == file[resume..resume + a + f]
    ensures Wire(file, resume, a, 0, f) == file[resume..] <==> resume + a + f == |file|
  {
    var w := Wire(file, resume, a, 0, f);
    assert w == file[resume..resume + a + f];
    assert |w| == a + f && |file[resume..]| == |file| - resume;
  }

  lemma Assemble<T>(file: seq<T>, resume: nat, first: seq<T>, second: seq<T>, third: seq<T>)
    requires SendsFrom(file, resume, first)
    requires SendsFrom(file, resume + |first|, second)
    requires SendsFrom(file, resume + |first|, third)
    ensures first + second + third == Wire(file, resume, |first|, |second|, |third|)
  {
  }

  // One stage sends everything, the others nothing.
  lemma OneStageSendsAll<T>(file: seq<T>, resume: nat, first: seq<T>, second: seq<T>, third: seq<T>)
    requires resume <= |file| && |first + second + third| == |file| - resume
    requires SendsFrom(file, resume, first)
    requires SendsFrom(file, resume + |first|, second)
    requires SendsFrom(file, resume + |first|, third)
    requires second == [] || third == []
    ensures first + second + third == file[resume..]
  {
    var later := if second == [] then third else second;
    assert first + second + third == first + later;
    assert file[resume..resume + |first|] + file[resume + |first|..] == file[resume..];
  }

  // No request is met in part when every call moves what a buffer holds.
  lemma WillingNeverShort(k: Kernel, rate: int, clock: Clock, size: nat, first: nat, log: Log)
    requires Willing(k, size) && Logged(rate, clock, size, log)
    ensures !LastFallsShort(k, first, log.asked)
  {
    hide Scheduled;
    if log.asked != [] {
      assert k.script(|log.asked| - 1) >= size >= log.asked[|log.asked| - 1];
    }
  }

  // Sendfile first; then mmap, then the read/send loop, each only while the
  // transfer is not complete.
  method RunStages<T>(
      file: seq<T>, resume: nat, size: nat, rate: int, clock: Clock, kernel: Kernel, useSendfile: bool, useMmap: bool)
    returns (d: Delivery<T>)
    requires Restarts(file, resume) && size > 0
    ensures d.status == Finished && d.total == |d.wire|
    ensures Logged(rate, clock, size, d.log) && Sum(d.log.sizes) == |d.wire|
    ensures Possible(file, resume, useSendfile, useMmap, d.bySendfile, d.byMmap, d.byRead)
    ensures d.wire == Wire(file, resume, d.bySendfile, d.byMmap, d.byRead)
    ensures d.ok <==> Completed(file, resume, d.bySendfile, d.byMmap, d.byRead)
    // It fails only because a call of the last stage does, and when all calls
    // move what they are asked to, the whole rest goes out once.
    ensures !d.ok ==> LastFallsShort(kernel, d.readFrom, d.log.asked)
    ensures Willing(kernel, size) ==> d.ok && d.wire == file[resume..]
  {
    hide Logged, Sum, LastFallsShort, Willing;
    NothingLogged(rate, clock, size);
    var first, log, total := SendfileStage(useSendfile, file, resume, size, rate, clock, kernel, Log([], [], []), 0);
    if Willing(kernel, size) {
      WillingNeverShort(kernel, rate, clock, size, 0, log);
    }
    var offset := resume + |first|;
    var sentAll := useSendfile && resume < |file| && offset == |file|;
    ghost var calls := |log.asked|;
    var second;
    second, log, total := MmapStage(useMmap && !sentAll, file, offset, size, rate, clock, kernel, log, total);
    if Willing(kernel, size) {
      WillingNeverShort(kernel, rate, clock, size, calls, log);
    }
    var mappedAll := |second| > 0 && offset + |second| == |file|;
    var readFrom := |log.asked|;
    var third;
    third, log, total := ReadSendStage(!sentAll && !mappedAll, file, offset, size, rate, clock, kernel, log, total);
    if Willing(kernel, size) {
      WillingNeverShort(kernel, rate, clock, size, readFrom, log);
      OneStageSendsAll(file, resume, first, second, third);
    }
    var ok := sentAll || mappedAll || offset + |third| == |file|;
    Assemble(file, resume, first, second, third);
    d := Delivery(Finished, first + second + third, total, ok, |first|, |second|, |third|, log, readFrom);
  }

  function BufferSize(configured: nat): nat {
    if configured > 0 then configured else 32768
  }

  // What a log says about the pace of a download: every chunk starts under the
  // rate line, at the number of bytes sent before it, in order.
  lemma LoggedIsPaced(rate: int, clock: Clock, size: nat, log: Log)
    requires Logged(rate, clock, size, log)
    ensures Paced(rate, log.marks) && |log.marks| == |log.sizes|
    ensures forall i :: 0 <= i < |log.marks| ==> log.marks[i].total == Sum(log.sizes[..i]) && log.sizes[i] <= size
    ensures forall i, j :: 0 <= i < j < |log.marks| ==> log.marks[i].start <= log.marks[j].measured
  {
    ScheduleIsPaced(rate, clock, Totals(log.sizes), log.marks);
  }

  // The body of RETR once the file is open, in stream mode. `resume` is the
  // restart offset as a signed 64-bit position; `bufferSize` 0 selects the
  // default size.
  method Retrieve<T>(
      file: seq<T>, resume: int, bufferSize: nat, rate: int, clock: Clock, kernel: Kernel, useSendfile: bool,
      useMmap: bool)
    returns (d: Delivery<T>)
    ensures d.status != OutOfBounds ==>
              && d.total == |d.wire| == Sum(d.log.sizes)
              && Logged(rate, clock, BufferSize(bufferSize), d.log)
    ensures resume < 0 ==>
              (d.status == SeekFailed && d.wire == []) || (d.status == OutOfBounds && useMmap && file != [])
    ensures resume > 0 && resume >= |file| ==> d.status == NothingLeft && d.wire == []
    ensures Restarts(file, resume) ==>
              && d.status == Finished
              && Possible(file, resume, useSendfile, useMmap, d.bySendfile, d.byMmap, d.byRead)
              && d.wire == Wire(file, resume, d.bySendfile, d.byMmap, d.byRead)
              && (d.ok <==> Completed(file, resume, d.bySendfile, d.byMmap, d.byRead))
              && (!d.ok ==> LastFallsShort(kernel, d.readFrom, d.log.asked))
              && (Willing(kernel, BufferSize(bufferSize)) ==> d.ok && d.wire == file[resume..])
    // Without mmap the wire carries a prefix of the rest of the file, and the
    // transfer counts as successful exactly when that is all of it.
    ensures Restarts(file, resume) && !useMmap ==>
              && resume + |d.wire| <= |file|
              && d.wire == file[resume..resume + |d.wire|]
              && (d.ok <==> d.wire == file[resume..])
  {
    hide Logged, Sum;
    var size := BufferSize(bufferSize);
    NothingLogged(rate, clock, size);
    if resume > 0 {
      if resume >= |file| {
        return Delivery(NothingLeft, [], 0, false, 0, 0, 0, Log([], [], []), 0);
      }
    }
    if resume < 0 {
      // sendfile and lseek both refuse a negative offset; the mapping does not.
      if useMmap && file != [] && kernel.mapped {
        return Delivery(OutOfBounds, [], 0, false, 0, 0, 0, Log([], [], []), 0);
      }
      return Delivery(SeekFailed, [], 0, false, 0, 0, 0, Log([], [], []), 0);
    }
    d := RunStages(file, resume, size, rate, clock, kernel, useSendfile, useMmap);
    if !useMmap {
      WireUnbroken(file, resume, d.bySendfile, d.byRead);
    }
  }

  // The restart after a partial mmap send puts bytes on the wire twice. The
  // client receives a prefix of the rest of the file exactly when one of the two
  // stages sent nothing or the file repeats itself where they overlap.
  lemma MmapRestart<T>(file: seq<T>, resume: nat, a: nat, m: nat, f: nat)
    requires resume + a + m <= |file| && resume + a + f <= |file|
    ensures Wire(file, resume, a, m, f) <= file[resume..] <==>
      m == 0 || f == 0 || RepeatsItself(file, resume + a, m, f)
  {
    var w, rest, at := Wire(file, resume, a, m, f), file[resume..], resume + a;
    if m == 0 || f == 0 {
      assert w == file[resume..resume + |w|];
    } else if at + m + f <= |file| {
      assert w[a + m..] == file[at..at + f] && rest[..a + m + f][a + m..] == file[at + m..at + m + f];
      assert w[..a + m] == rest[..a + m];
      assert w == w[..a + m] + w[a + m..] && rest[..a + m + f] == rest[..a + m] + rest[..a + m + f][a + m..];
    }
  }

  // The f bytes from `at` on are those m places further on, too.
  predicate RepeatsItself<T(==)>(file: seq<T>, at: nat, m: nat, f: nat) {
    at + m + f <= |file| && file[at..at + f] == file[at + m..at + m + f]
  }

  // One byte from the mapping, then everything once more.
  lemma MmapResends<T>(file: seq<T>, resume: nat, useSendfile: bool)
    requires resume + 2 <= |file|
    ensures Possible(file, resume, useSendfile, true, 0, 1, |file| - resume)
    ensures Completed(file, resume, 0, 1, |file| - resume)
    ensures Wire(file, resume, 0, 1, |file| - resume) == [file[resume]] + file[resume..]
  {
  }

  // Before the transfer starts: whatever the system calls will return, the
  // client gets a prefix, exactly when mmap is off or at most one byte is left.
  lemma PrefixWhateverHappens<T>(file: seq<T>, resume: nat, useSendfile: bool, useMmap: bool)
    requires resume <= |file|
    ensures (forall a: nat, m: nat, f: nat :: Possible(file, resume, useSendfile, useMmap, a, m, f) ==>
               Wire(file, resume, a, m, f) <= file[resume..])
       <==> !useMmap || |file| - resume <= 1
  {
    if !useMmap || |file| - resume <= 1 {
      forall a: nat, m: nat, f: nat | Possible(file, resume, useSendfile, useMmap, a, m, f)
        ensures Wire(file, resume, a, m, f) <= file[resume..]
      {
        MmapRestart(file, resume, a, m, f);
      }
    } else {
      MmapResends(file, resume, useSendfile);
      assert !(Wire(file, resume, 0, 1, |file| - resume) <= file[resume..]);
    }
  }

  // And it gets the whole rest, whatever happens, exactly when there is none:
  // the reply that ends a download says nothing about completeness.
  lemma WholeWhateverHappens<T>(file: seq<T>, resume: nat, useSendfile: bool, useMmap: bool)
    requires resume <= |file|
    ensures (forall a: nat, m: nat, f: nat :: Possible(file, resume, useSendfile, useMmap, a, m, f) ==>
               Wire(file, resume, a, m, f) == file[resume..])
       <==> resume == |file|
  {
    if resume < |file| {
      assert Possible(file, resume, useSendfile, useMmap, 0, 0, 0);
      assert Wire(file, resume, 0, 0, 0) == [];
    }
  }

  // A download as the client sees it: some possible outcome, and whether the
  // server takes it for complete.
  ghost predicate Delivers<T>(
      file: seq<T>, resume: nat, useSendfile: bool, useMmap: bool, wire: seq<T>, complete: bool) {
    exists a: nat, m: nat, f: nat :: Possible(file, resume, useSendfile, useMmap, a, m, f) &&
      wire == Wire(file, resume, a, m, f) && (complete <==> Completed(file, resume, a, m, f))
  }

  // Without mmap the server is right about that, and never sends a wrong byte.
  lemma DeliversPlainly<T>(file: seq<T>, resume: nat, useSendfile: bool, wire: seq<T>, complete: bool)
    requires resume <= |file| && Delivers(file, resume, useSendfile, false, wire, complete)
    ensures wire <= file[resume..] && (complete <==> wire == file[resume..])
  {
    var a: nat, m: nat, f: nat :| Possible(file, resume, useSendfile, false, a, m, f) &&
      wire == Wire(file, resume, a, m, f) && (complete <==> Completed(file, resume, a, m, f));
    WireUnbroken(file, resume, a, f);
  }

  lemma PrefixThenMore<T>(file: seq<T>, a: seq<T>, b: seq<T>)
    requires a <= file && |a| + |b| <= |file| && b == file[|a|..|a| + |b|]
    ensures a + b == file[..|a| + |b|]
    ensures a + b <= file && (a + b == file <==> |a| + |b| == |file|)
  {
    var n := |a| + |b|;
    assert file[..|a|] + file[|a|..n] == file[..n];
    assert n == |file| ==> file[..n] == file;
  }

  // A download cut off after some bytes and resumed with REST at that count
  // rebuilds the file.
  method DownloadInTwo<T>(
      file: seq<T>, bufferSize: nat, rate: int, clock: Clock, first: Kernel, second: Kernel, useSendfile: bool)
    returns (received: seq<T>, complete: bool)
    ensures received <= file
    ensures complete <==> received == file
    ensures Willing(second, BufferSize(bufferSize)) ==> complete
  {
    hide Willing;
    var one := Retrieve(file, 0, bufferSize, rate, clock, first, useSendfile, false);
    assert one.wire <= file;
    var k := |one.wire|;
    var two := Retrieve(file, k, bufferSize, rate, clock, second, useSendfile, false);
    PrefixThenMore(file, one.wire, two.wire);
    received := one.wire + two.wire;
    complete := one.ok || two.ok;
    assert one.ok <==> k == |file|;
    assert two.ok && two.status == Finished ==> |two.wire| == |file| - k;
  }

  // ----- Upload -----

  // A successful receive: at least one byte, at most the 8192 of the buffer.
  type Chunk = c: seq<Byte> | 0 < |c| <= 8192 witness [0]

  function Flatten(chunks: seq<Chunk>): seq<Byte> {
    if chunks == [] then [] else Flatten(chunks[..|chunks| - 1]) + chunks[|chunks| - 1]
  }

  // Writing at a position of a file; a gap past the end reads as zeros.
  function WriteAt(was: seq<Byte>, position: nat, data: seq<Byte>): seq<Byte> {
    if data == [] then was
    else if position > |was| then was + seq(position - |was|, _ => 0) + data
    else if position + |data| > |was| then was[..position] + data
    else was[..position] + data + was[position + |data|..]
  }

  // What a write inside the file, or at its end, leaves before and behind it.
  lemma WriteAtParts(was: seq<Byte>, position: nat, data: seq<Byte>)
    requires position <= |was|
    ensures var once, end := WriteAt(was, position, data), position + |data|;
      && |once| == (if end > |was| then end else |was|)
      && once[..end] == was[..position] + data
      && (end <= |was| ==> once[end..] == was[end..])
      && once == was[..position] + data + (if end <= |was| then was[end..] else [])
  {
    if data == [] {
      assert was == was[..position] + was[position..];
    }
  }

  lemma WriteAtBeyond(was: seq<Byte>, position: nat, a: seq<Byte>, b: seq<Byte>)
    requires position > |was| && a != [] && b != []
    ensures WriteAt(WriteAt(was, position, a), position + |a|, b) == WriteAt(was, position, a + b)
  {
    var gap := seq(position - |was|, _ => 0 as Byte);
    var once := was + gap + a;
    assert WriteAt(was, position, a) == once;
    assert once[..position + |a|] == once;
    assert once + b == was + gap + (a + b);
  }

  lemma WriteAtConcat(was: seq<Byte>, position: nat, a: seq<Byte>, b: seq<Byte>)
    ensures WriteAt(WriteAt(was, position, a), position + |a|, b) == WriteAt(was, position, a + b)
  {
    if a == [] {
      assert a + b == b;
    } else if b == [] {
      assert a + b == a;
    } else if position > |was| {
      WriteAtBeyond(was, position, a, b);
    } else {
      hide WriteAt;
      var once, end := WriteAt(was, position, a), position + |a| + |b|;
      WriteAtParts(was, position, a);
      WriteAtParts(once, position + |a|, b);
      WriteAtParts(was, position, a + b);
      assert was[..position] + a + b == was[..position] + (a + b);
      if end <= |was| {
        assert once[end..] == once[position + |a|..][|b|..];
        assert was[end..] == was[position + |a|..][|b|..];
      }
    }
  }

  // The first n bytes, or all there are.
  function Kept(data: seq<Byte>, n: nat): seq<Byte> {
    if n < |data| then data[..n] else data
  }

  // The running total up to and including each chunk.
  function Totalled(chunks: seq<Chunk>): seq<nat> {
    seq(|chunks|, i requires 0 <= i < |chunks| => |Flatten(chunks[..i + 1])|)
  }

  lemma TotalledStep(chunks: seq<Chunk>, i: nat)
    requires i < |chunks|
    ensures Flatten(chunks[..i + 1]) == Flatten(chunks[..i]) + chunks[i]
    ensures Totalled(chunks[..i + 1]) == Totalled(chunks[..i]) + [|Flatten(chunks[..i + 1])|]
  {
    assert chunks[..i + 1][..i] == chunks[..i];
    var longer := Totalled(chunks[..i]) + [|Flatten(chunks[..i + 1])|];
    forall j | 0 <= j <= i ensures Totalled(chunks[..i + 1])[j] == longer[j] {
      assert chunks[..i + 1][..j + 1] == chunks[..j + 1];
      if j < i {
        assert chunks[..i][..j + 1] == chunks[..j + 1];
      }
    }
  }

  lemma KeptStep(data: seq<Byte>, more: seq<Byte>, n: nat)
    ensures Kept(data + more, n) == Kept(data, n) + Kept(more, n - |Kept(data, n)|)
    ensures |Kept(data, n)| <= n && |Kept(data + more, n)| <= n
  {
  }

  // The receive loop of STOR. A write that fails keeps what fitted and makes
  // every later one fail, and the loop goes on all the same; `room` is how many
  // bytes are written in all. What the file holds afterwards depends on the
  // chunks only through their concatenation.
  method ReceiveUpload(
      was: seq<Byte>, position: nat, chunks: seq<Chunk>, rate: int, clock: Clock, room: nat)
    returns (content: seq<Byte>, total: nat, marks: seq<Mark>)
    ensures content == WriteAt(was, position, Kept(Flatten(chunks), room))
    ensures total == |Flatten(chunks)|
    ensures Scheduled(rate, clock, Totalled(chunks), marks)
  {
    hide MarkOf, Before, WriteAt, Scheduled, Flatten, Kept;
    content := was;
    total := 0;
    marks := [];
    var written := 0;
    NothingReceived(was, position, chunks, rate, clock, room);
    for i := 0 to |chunks|
      invariant written == |Kept(Flatten(chunks[..i]), room)| <= room
      invariant content == WriteAt(was, position, Kept(Flatten(chunks[..i]), room))
      invariant total == |Flatten(chunks[..i])|
      invariant Scheduled(rate, clock, Totalled(chunks[..i]), marks) && |marks| == i
    {
      var received := chunks[i];
      TotalledStep(chunks, i);
      var mark := Throttle(rate, total + |received|, Before(marks, |marks|), clock(|marks|));
      ScheduleStep(rate, clock, Totalled(chunks[..i]), marks, total + |received|);
      marks := marks + [mark];
      var piece := Kept(received, room - written);
      KeptStep(Flatten(chunks[..i]), received, room);
      WriteAtConcat(was, position, Kept(Flatten(chunks[..i]), room), piece);
      content := WriteAt(content, position + written, piece);
      written := written + |piece|;
      total := total + |received|;
    }
    assert chunks[..|chunks|] == chunks;
  }

  lemma NothingReceived(was: seq<Byte>, position: nat, chunks: seq<Chunk>, rate: int, clock: Clock, room: nat)
    ensures Flatten(chunks[..0]) == [] && Kept([], room) == [] && WriteAt(was, position, []) == was
    ensures Scheduled(rate, clock, Totalled(chunks[..0]), [])
  {
  }

  // An upload goes at the same pace: every chunk is written under the rate
  // line, at the number of bytes received with it, in order.
  lemma UploadIsPaced(chunks: seq<Chunk>, rate: int, clock: Clock, marks: seq<Mark>)
    requires Scheduled(rate, clock, Totalled(chunks), marks)
    ensures Paced(rate, marks) && |marks| == |chunks|
    ensures forall i :: 0 <= i < |marks| ==> marks[i].total == |Flatten(chunks[..i + 1])|
    ensures forall i, j :: 0 <= i < j < |marks| ==> marks[i].start <= marks[j].measured
  {
    hide Scheduled, Paced, Flatten;
    ScheduleIsPaced(rate, clock, Totalled(chunks), marks);
  }

  // The receive loop of APPE.
  method AppendUpload(was: seq<Byte>, chunks: seq<Chunk>, room: nat) returns (content: seq<Byte>)
    ensures content == was + Kept(Flatten(chunks), room)
  {
    hide Flatten, Kept;
    content := was;
    var written := 0;
    assert Flatten(chunks[..0]) == [] && Kept([], room) == [] by {
      NothingReceived(was, 0, chunks, 0, _ => Tick(0, 0), room);
    }
    for i := 0 to |chunks|
      invariant written == |Kept(Flatten(chunks[..i]), room)| <= room
      invariant content == was + Kept(Flatten(chunks[..i]), room)
    {
      TotalledStep(chunks, i);
      KeptStep(Flatten(chunks[..i]), chunks[i], room);
      var piece := Kept(chunks[i], room - written);
      content := content + piece;
      written := written + |piece|;
    }
    assert chunks[..|chunks|] == chunks;
  }

  // Resuming inside a file replaces exactly the stretch that was sent.
  lemma WriteAtInside(was: seq<Byte>, position: nat, data: seq<Byte>, i: nat)
    requires position <= |was| && data != []
    requires i < |WriteAt(was, position, data)|
    ensures |WriteAt(was, position, data)|
         == (if position + |data| > |was| then position + |data| else |was|)
    ensures WriteAt(was, position, data)[i]
         == (if position <= i < position + |data| then data[i - position] else was[i])
  {
  }

  // A first STOR cut off after k > 0 bytes, then REST k and a STOR of the
  // rest, leaves the whole file, however the bytes were chunked, if all of
  // them could be written.
  method UploadInTwo(first: seq<Chunk>, rest: seq<Chunk>, rate: int, clock: Clock, room: nat)
    returns (content: seq<Byte>)
    requires first != [] && room >= |Flatten(first)| && room >= |Flatten(rest)|
    ensures content == Flatten(first) + Flatten(rest)
  {
    var truncated, k, marks := ReceiveUpload([], 0, first, rate, clock, room);
    assert [] + Flatten(first) == Flatten(first);
    assert Flatten(first) != [] by { assert first[|first| - 1] != []; }
    assert truncated == Flatten(first);
    var total;
    content, total, marks := ReceiveUpload(truncated, k, rest, rate, clock, room);
    assert truncated[..k] == truncated;
  }

  // The bytes already stand where they would be written, or there are none.
  predicate AlreadyThere(was: seq<Byte>, position: nat, data: seq<Byte>) {
    data == [] || (position + |data| <= |was| && was[position..position + |data|] == data)
  }

  // However many bytes can be written, the file ends up as if all of them had
  // been, exactly when writing changes nothing.
  lemma WholeWhateverRoom(was: seq<Byte>, position: nat, data: seq<Byte>)
    ensures (forall room: nat :: WriteAt(was, position, Kept(data, room)) == WriteAt(was, position, data))
       <==> AlreadyThere(was, position, data)
  {
    var all := WriteAt(was, position, data);
    if AlreadyThere(was, position, data) {
      forall room: nat ensures WriteAt(was, position, Kept(data, room)) == all {
        WritesNothing(was, position, data);
        WritesNothing(was, position, Kept(data, room));
      }
    } else {
      assert Kept(data, 0) == [] && WriteAt(was, position, []) == was;
      assert all != was by { WritesSomething(was, position, data); }
    }
  }

  lemma WritesNothing(was: seq<Byte>, position: nat, data: seq<Byte>)
    requires AlreadyThere(was, position, data)
    ensures WriteAt(was, position, data) == was
  {
    if data != [] {
      assert was == was[..position] + was[position..position + |data|] + was[position + |data|..];
    }
  }

  lemma WritesSomething(was: seq<Byte>, position: nat, data: seq<Byte>)
    requires !AlreadyThere(was, position, data)
    ensures WriteAt(was, position, data) != was
  {
    var all := WriteAt(was, position, data);
    if position + |data| <= |was| {
      assert all[position..position + |data|] == data;
    }
  }
}
