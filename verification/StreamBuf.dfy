/** asio's growable stream buffer (basic_streambuf.hpp): one array, get and put pointers kept as
    offsets, compaction and bounded growth; proved to be a bounded first-in first-out byte queue. */
module StreamBuf {
  import opened Prelude

  const BUFFER_DELTA := 128

  // ---------------------------------------------------------------- the queue it stands for

  /** What a client does: put bytes in through prepare, fill and commit; put one in through
      overflow; take bytes out through data and consume. */
  datatype Call = Append(data: seq<Byte>) | Put(b: Byte) | Take(n: nat)

  /** A call fails exactly when the bytes would exceed the maximum size. */
  predicate Fits(contents: seq<Byte>, maxSize: nat, call: Call) {
    match call
    case Append(data) => |contents| + |data| <= maxSize
    case Put(_) => |contents| < maxSize
    case Take(_) => true
  }

  function Input(call: Call): seq<Byte> {
    match call
    case Append(data) => data
    case Put(b) => [b]
    case Take(_) => []
  }

  function Output(contents: seq<Byte>, call: Call): seq<Byte> {
    match call
    case Take(n) => contents[..Min(n, |contents|)]
    case _ => []
  }

  function Queued(contents: seq<Byte>, call: Call): seq<Byte> {
    match call
    case Take(n) => contents[Min(n, |contents|)..]
    case _ => contents + Input(call)
  }

  function QueueAfter(contents: seq<Byte>, calls: seq<Call>): seq<Byte> {
    if calls == [] then contents
    else Queued(QueueAfter(contents, calls[..|calls| - 1]), calls[|calls| - 1])
  }

  function AllInput(calls: seq<Call>): seq<Byte> {
    if calls == [] then [] else AllInput(calls[..|calls| - 1]) + Input(calls[|calls| - 1])
  }

  function AllOutput(contents: seq<Byte>, calls: seq<Call>): seq<Byte> {
    if calls == [] then []
    else AllOutput(contents, calls[..|calls| - 1])
         + Output(QueueAfter(contents, calls[..|calls| - 1]), calls[|calls| - 1])
  }

  predicate AllFit(contents: seq<Byte>, maxSize: nat, calls: seq<Call>) {
    calls == [] || (
      && AllFit(contents, maxSize, calls[..|calls| - 1])
      && Fits(QueueAfter(contents, calls[..|calls| - 1]), maxSize, calls[|calls| - 1]))
  }

  /** Over any run of successful calls: what was taken, followed by what is left, is what was there
      at the start followed by what was put in, in order; and the bound is never exceeded. */
  lemma {:induction false} BytesConserved(contents: seq<Byte>, maxSize: nat, calls: seq<Call>)
    requires |contents| <= maxSize && AllFit(contents, maxSize, calls)
    ensures AllOutput(contents, calls) + QueueAfter(contents, calls) == contents + AllInput(calls)
    ensures |QueueAfter(contents, calls)| <= maxSize
  {
    if calls != [] {
      var n := |calls| - 1;
      BytesConserved(contents, maxSize, calls[..n]);
      var out, q, call := AllOutput(contents, calls[..n]), QueueAfter(contents, calls[..n]), calls[n];
      CallConserves(q, maxSize, call);
      Reassociate(out, Output(q, call), Queued(q, call), q, Input(call), contents, AllInput(calls[..n]));
    }
  }

  lemma CallConserves(q: seq<Byte>, maxSize: nat, call: Call)
    requires |q| <= maxSize && Fits(q, maxSize, call)
    ensures Output(q, call) + Queued(q, call) == q + Input(call)
    ensures |Queued(q, call)| <= maxSize
  {
  }

  lemma Reassociate(out: seq<Byte>, taken: seq<Byte>, left: seq<Byte>, q: seq<Byte>, added: seq<Byte>,
                    start: seq<Byte>, input: seq<Byte>)
    requires taken + left == q + added && out + q == start + input
    ensures (out + taken) + left == start + (input + added)
  {
    assert (out + taken) + left == out + (taken + left);
    assert out + (q + added) == (out + q) + added;
  }

  lemma NoCalls(contents: seq<Byte>, maxSize: nat, calls: seq<Call>)
    ensures QueueAfter(contents, calls[..0]) == contents && AllOutput(contents, calls[..0]) == []
    ensures AllFit(contents, maxSize, calls[..0])
  {
  }

  /** One more call of a run. */
  lemma OneMoreCall(contents: seq<Byte>, maxSize: nat, calls: seq<Call>, k: nat)
    requires k < |calls|
    ensures var q := QueueAfter(contents, calls[..k]);
            && QueueAfter(contents, calls[..k + 1]) == Queued(q, calls[k])
            && AllOutput(contents, calls[..k + 1]) == AllOutput(contents, calls[..k]) + Output(q, calls[k])
            && (AllFit(contents, maxSize, calls[..k + 1]) <==>
                  AllFit(contents, maxSize, calls[..k]) && Fits(q, maxSize, calls[k]))
  {
    assert calls[..k + 1][..k] == calls[..k];
  }

  // ---------------------------------------------------------------- the members, in any order

  /** The members a client may call, in any order. `Fill` is the client's own writing into the
      output sequence, as much of the data as it holds; `Overflow([])` is the call with eof. */
  datatype Member =
    | Prepare(n: nat)
    | Fill(data: seq<Byte>)
    | Commit(n: nat)
    | Consume(n: nat)
    | Underflow
    | Overflow(c: seq<Byte>)

  /** The input and the output sequence at one moment, and how many bytes stand consumed before the
      input sequence in the array. */
  datatype View = View(contents: seq<Byte>, area: seq<Byte>, gap: nat)

  /** When a member throws length_error. */
  predicate Throws(v: View, maxSize: nat, call: Member) {
    match call
    case Prepare(n) => |v.contents| + n > maxSize
    case Overflow(c) => c != [] && |v.contents| == maxSize
    case _ => false
  }

  /** What a member that does not throw does to them. An output sequence that is large enough stays
      as it is; otherwise the consumed bytes are given up, and it becomes as large as asked for or
      as they leave room for, with any content. */
  ghost predicate MemberStep(v: View, call: Member, v': View, maxSize: nat) {
    match call
    case Prepare(n) =>
      v'.contents == v.contents
      && if n <= |v.area| then v' == v else v'.gap == 0 && |v'.area| == Max(n, v.gap + |v.area|)
    case Fill(data) =>
      var k := Min(|data|, |v.area|);
      v' == v.(area := data[..k] + v.area[k..])
    case Commit(n) =>
      var k := Min(n, |v.area|);
      v' == v.(contents := v.contents + v.area[..k], area := v.area[k..])
    case Consume(n) =>
      var k := Min(n, |v.contents|);
      v' == v.(contents := v.contents[k..], gap := v.gap + k)
    case Underflow => v' == v
    case Overflow(c) =>
      if c == [] then v' == v
      else if v.area != [] then v' == v.(contents := v.contents + c, area := v.area[1..])
      else
        && v'.contents == v.contents + c && v'.gap == 0
        && |v'.area| + 1 == Max(Min(128, NonNegative(maxSize - |v.contents|)), v.gap)
  }

  /** What a member that throws has done all the same. */
  function Thrown(v: View): View {
    v.(contents := Slipped(v.contents, v.gap))
  }

  /** The bytes a member adds to the input sequence, from the output sequence or its argument. */
  function Given(call: Member, area: seq<Byte>): seq<Byte> {
    match call
    case Commit(n) => area[..Min(n, |area|)]
    case Overflow(c) => c
    case _ => []
  }

  /** The bytes a member removes from the input sequence. */
  function Taken(call: Member, contents: seq<Byte>): seq<Byte> {
    match call
    case Consume(n) => contents[..Min(n, |contents|)]
    case _ => []
  }

  /** `trace` shows the sequences before the first call and after each, none of which throws. */
  ghost predicate IsTrace(calls: seq<Member>, trace: seq<View>, maxSize: nat) {
    && |trace| == |calls| + 1
    && forall i :: 0 <= i < |calls| ==>
                     !Throws(trace[i], maxSize, calls[i]) && MemberStep(trace[i], calls[i], trace[i + 1], maxSize)
  }

  /** The two sequences never exceed the maximum size together. */
  ghost predicate InBounds(trace: seq<View>, maxSize: nat) {
    forall i :: 0 <= i < |trace| ==> |trace[i].contents| + |trace[i].area| <= maxSize
  }

  /** All bytes committed or put, in order. */
  function AllGiven(calls: seq<Member>, trace: seq<View>): seq<Byte>
    requires |calls| <= |trace|
  {
    if calls == [] then []
    else
      var n := |calls| - 1;
      AllGiven(calls[..n], trace) + Given(calls[n], trace[n].area)
  }

  /** All bytes consumed, in order. */
  function AllTaken(calls: seq<Member>, trace: seq<View>): seq<Byte>
    requires |calls| <= |trace|
  {
    if calls == [] then []
    else
      var n := |calls| - 1;
      AllTaken(calls[..n], trace) + Taken(calls[n], trace[n].contents)
  }

  lemma StepConserves(v: View, call: Member, v': View, maxSize: nat)
    requires MemberStep(v, call, v', maxSize)
    ensures Taken(call, v.contents) + v'.contents == v.contents + Given(call, v.area)
  {
  }

  lemma {:induction false} FewerViews(calls: seq<Member>, trace: seq<View>, k: nat)
    requires |calls| <= k <= |trace|
    ensures AllGiven(calls, trace[..k]) == AllGiven(calls, trace)
    ensures AllTaken(calls, trace[..k]) == AllTaken(calls, trace)
  {
    if calls != [] {
      FewerViews(calls[..|calls| - 1], trace, k);
    }
  }

  lemma JoinThree(a: seq<Byte>, b: seq<Byte>, c: seq<Byte>)
    ensures (a + b) + c == a + (b + c)
  {
  }

  /** A trace without its last call is a trace, and the last call is a step. */
  lemma LastCall(calls: seq<Member>, trace: seq<View>, maxSize: nat)
    requires calls != [] && IsTrace(calls, trace, maxSize)
    ensures var n := |calls| - 1;
            && |trace| == n + 2 && IsTrace(calls[..n], trace[..n + 1], maxSize)
            && MemberStep(trace[n], calls[n], trace[n + 1], maxSize)
  {
    hide MemberStep, Throws;
    var n := |calls| - 1;
    forall i | 0 <= i < n
      ensures !Throws(trace[..n + 1][i], maxSize, calls[..n][i])
      ensures MemberStep(trace[..n + 1][i], calls[..n][i], trace[..n + 1][i + 1], maxSize)
    {
      assert !Throws(trace[i], maxSize, calls[i]) && MemberStep(trace[i], calls[i], trace[i + 1], maxSize);
    }
    assert MemberStep(trace[n], calls[n], trace[n + 1], maxSize);
  }

  /** Whatever the order of the calls: the bytes present at the start followed by those committed or
      put are the bytes consumed followed by those present at the end. */
  lemma {:induction false} TraceConserves(calls: seq<Member>, trace: seq<View>, maxSize: nat)
    requires IsTrace(calls, trace, maxSize)
    ensures trace[0].contents + AllGiven(calls, trace) == AllTaken(calls, trace) + trace[|calls|].contents
  {
    if calls != [] {
      hide MemberStep, Given, Taken, IsTrace;
      var n := |calls| - 1;
      LastCall(calls, trace, maxSize);
      TraceConserves(calls[..n], trace[..n + 1], maxSize);
      FewerViews(calls[..n], trace, n + 1);
      StepConserves(trace[n], calls[n], trace[n + 1], maxSize);
      Reassociate(AllTaken(calls[..n], trace), Taken(calls[n], trace[n].contents), trace[n + 1].contents,
                  trace[n].contents, Given(calls[n], trace[n].area), trace[0].contents, AllGiven(calls[..n], trace));
    }
  }

  /** Commits, consumes and looks hand out the output sequence as it stood, from its front. */
  lemma {:induction false} CommitsHandOutArea(calls: seq<Member>, trace: seq<View>, maxSize: nat)
    requires IsTrace(calls, trace, maxSize)
    requires forall i :: 0 <= i < |calls| ==> calls[i].Commit? || calls[i].Consume? || calls[i].Underflow?
    ensures AllGiven(calls, trace) + trace[|calls|].area == trace[0].area
  {
    if calls != [] {
      hide MemberStep, Given, IsTrace;
      var n := |calls| - 1;
      LastCall(calls, trace, maxSize);
      CommitsHandOutArea(calls[..n], trace[..n + 1], maxSize);
      FewerViews(calls[..n], trace, n + 1);
      AreaShrinks(trace[n], calls[n], trace[n + 1], maxSize);
      JoinThree(AllGiven(calls[..n], trace), Given(calls[n], trace[n].area), trace[n + 1].area);
    }
  }

  lemma AreaShrinks(v: View, call: Member, v': View, maxSize: nat)
    requires MemberStep(v, call, v', maxSize) && (call.Commit? || call.Consume? || call.Underflow?)
    ensures Given(call, v.area) + v'.area == v.area
  {
  }

  /** The rest of a trace is a trace. */
  lemma TraceFrom(calls: seq<Member>, trace: seq<View>, k: nat, maxSize: nat)
    requires k <= |calls| && IsTrace(calls, trace, maxSize)
    ensures IsTrace(calls[k..], trace[k..], maxSize)
  {
    hide MemberStep, Throws;
    forall i | 0 <= i < |calls[k..]|
      ensures !Throws(trace[k..][i], maxSize, calls[k..][i])
      ensures MemberStep(trace[k..][i], calls[k..][i], trace[k..][i + 1], maxSize)
    {
      assert !Throws(trace[k + i], maxSize, calls[k + i]);
      assert MemberStep(trace[k + i], calls[k + i], trace[k + i + 1], maxSize);
    }
  }

  /** What is filled in is what is committed: after `prepare(n)` and writing at most `n` bytes, the
      commits that follow, in one piece or several and with consumes in between, hand out these
      bytes first and in order. */
  lemma FilledIsCommitted(n: nat, data: seq<Byte>, calls: seq<Member>, trace: seq<View>, maxSize: nat)
    requires |calls| >= 2 && calls[0] == Prepare(n) && calls[1] == Fill(data) && |data| <= n
    requires IsTrace(calls, trace, maxSize)
    requires forall i :: 2 <= i < |calls| ==> calls[i].Commit? || calls[i].Consume? || calls[i].Underflow?
    ensures |trace[1].area| >= |data|
    ensures AllGiven(calls[2..], trace[2..]) + trace[|calls|].area == data + trace[1].area[|data|..]
  {
    hide AllGiven;
    TraceFrom(calls, trace, 2, maxSize);
    FilledArea(trace[0], n, data, trace[1], trace[2], maxSize) by {
      assert MemberStep(trace[0], calls[0], trace[1], maxSize) && MemberStep(trace[1], calls[1], trace[1 + 1], maxSize);
    }
    hide IsTrace, MemberStep;
    CommitsHandOutArea(calls[2..], trace[2..], maxSize);
  }

  lemma FilledArea(v: View, n: nat, data: seq<Byte>, prepared: View, filled: View, maxSize: nat)
    requires MemberStep(v, Prepare(n), prepared, maxSize) && MemberStep(prepared, Fill(data), filled, maxSize)
    requires |data| <= n
    ensures |prepared.area| >= |data| && filled.area == data + prepared.area[|data|..]
  {
  }

  lemma FirstView(calls: seq<Member>, trace: seq<View>, maxSize: nat)
    requires |trace| == 1
    ensures IsTrace(calls[..0], trace, maxSize)
    ensures |trace[0].contents| + |trace[0].area| <= maxSize ==> InBounds(trace, maxSize)
    ensures AllGiven(calls[..0], trace) == [] && AllTaken(calls[..0], trace) == []
  {
  }

  /** One more call of a trace. */
  lemma NextView(calls: seq<Member>, trace: seq<View>, k: nat, v: View, maxSize: nat)
    requires k < |calls| && IsTrace(calls[..k], trace, maxSize)
    requires !Throws(trace[k], maxSize, calls[k]) && MemberStep(trace[k], calls[k], v, maxSize)
    ensures IsTrace(calls[..k + 1], trace + [v], maxSize)
    ensures InBounds(trace, maxSize) && |v.contents| + |v.area| <= maxSize ==> InBounds(trace + [v], maxSize)
    ensures AllGiven(calls[..k + 1], trace + [v]) == AllGiven(calls[..k], trace) + Given(calls[k], trace[k].area)
    ensures AllTaken(calls[..k + 1], trace + [v]) == AllTaken(calls[..k], trace) + Taken(calls[k], trace[k].contents)
  {
    hide MemberStep, Throws, Given, Taken;
    var longer := trace + [v];
    assert calls[..k + 1][..k] == calls[..k] && longer[..k + 1] == trace;
    FewerViews(calls[..k], longer, k + 1);
    forall i | 0 <= i < k + 1
      ensures !Throws(longer[i], maxSize, calls[..k + 1][i])
      ensures MemberStep(longer[i], calls[..k + 1][i], longer[i + 1], maxSize)
    {
      if i < k {
        assert calls[..k][i] == calls[i];
        assert !Throws(trace[i], maxSize, calls[..k][i]) && MemberStep(trace[i], calls[..k][i], trace[i + 1], maxSize);
      }
    }
  }

  /** Moving the boundary between two neighbouring stretches by `k` moves `k` bytes. */
  lemma Boundary(s: seq<Byte>, a: nat, b: nat, k: nat, c: nat)
    requires a <= b <= b + k <= c <= |s|
    ensures s[a..b + k] == s[a..b] + s[b..c][..k]
    ensures s[b + k..c] == s[b..c][k..]
  {
  }

  // ---------------------------------------------------------------- a call that throws

  /** What a throwing call makes of the input sequence when `gap` bytes before it had been consumed:
      the bytes have moved down by the gap and the pointers have not. */
  function Slipped(contents: seq<Byte>, gap: nat): (s: seq<Byte>)
    ensures |s| == |contents|
  {
    var k := Min(gap, |contents|);
    contents[k..] + contents[|contents| - k..]
  }

  /** The two sequences, read through the old pointers after the bytes between them have moved down. */
  lemma AfterShift(before: seq<Byte>, moved: seq<Byte>, gnext: nat, pnext: nat, pend: nat)
    requires gnext <= pnext <= pend <= |before|
    requires moved == before[gnext..pnext] + before[pnext - gnext..]
    ensures moved[gnext..pnext] == Slipped(before[gnext..pnext], gnext)
    ensures moved[pnext..pend] == before[pnext..pend]
  {
    var n := pnext - gnext;
    assert forall x :: n <= x < |before| ==> moved[x] == before[x];
    forall i | 0 <= i < n ensures moved[gnext..pnext][i] == Slipped(before[gnext..pnext], gnext)[i] {
      if i + gnext < n {
        assert moved[gnext + i] == before[gnext..pnext][gnext + i];
      }
    }
  }

  /** The sequence repeats itself after `gap` bytes. */
  predicate Repeats(contents: seq<Byte>, gap: nat) {
    forall i :: 0 <= i && i + gap < |contents| ==> contents[i] == contents[i + gap]
  }

  /** Slipping leaves exactly such a sequence as it was; with no gap, or one as long as the
      sequence, any. */
  lemma KeptExactly(contents: seq<Byte>, gap: nat)
    ensures Slipped(contents, gap) == contents <==> Repeats(contents, gap)
    ensures gap == 0 || gap >= |contents| ==> Repeats(contents, gap)
  {
    var k := Min(gap, |contents|);
    var s := Slipped(contents, gap);
    assert forall i :: 0 <= i < |contents| ==>
                         s[i] == if i + k < |contents| then contents[i + k] else contents[i];
    if s == contents {
      assert forall i :: 0 <= i && i + gap < |contents| ==> contents[i] == s[i] == contents[i + gap];
    }
  }

  // ---------------------------------------------------------------- the class

  datatype PutResult = Stored(b: Byte) | NotEof | LengthError

  class BasicStreambuf {
    const maxSize: nat
    var buffer: array<Byte>
    /** The vector's capacity. */
    var capacity: nat
    /** Offsets of gptr, egptr, pptr and epptr from the start of the array. */
    var gnext: nat
    var gend: nat
    var pnext: nat
    var pend: nat

    /** The pointers are in order and inside the array, and the put area never passes `maxSize`. */
    ghost predicate Valid()
      reads this
    {
      && gnext <= gend <= pnext <= pend <= maxSize
      && buffer.Length == Max(pend, 1)
      && buffer.Length <= capacity
    }

    /** The input sequence. */
    function Contents(): (s: seq<Byte>)
      reads this, buffer
      requires Valid()
      ensures |s| == pnext - gnext
    {
      buffer[gnext..pnext]
    }

    /** The output sequence. */
    function Area(): (s: seq<Byte>)
      reads this, buffer
      requires Valid()
      ensures |s| == pend - pnext
    {
      buffer[pnext..pend]
    }

    /** Both sequences and the consumed bytes before them. */
    function Here(): (v: View)
      reads this, buffer
      requires Valid()
      ensures |v.contents| + |v.area| <= maxSize
    {
      View(Contents(), Area(), gnext)
    }

    constructor (maximumSize: nat)
      ensures Valid() && fresh(buffer) && maxSize == maximumSize
      ensures Contents() == [] && |Area()| == Min(maximumSize, 128) && gnext == 0
    {
      var end := Min(maximumSize, BUFFER_DELTA);
      maxSize := maximumSize;
      buffer := new Byte[Max(end, 1)](_ => 0);
      capacity := Max(end, 1);
      gnext, gend, pnext, pend := 0, 0, 0, end;
    }

    function Size(): (n: nat)
      reads this, buffer
      requires Valid()
      ensures n == |Contents()| <= maxSize
    {
      pnext - gnext
    }

    /** Make room for `n` more bytes; `false` is the thrown length_error. */
    method Reserve(n: nat) returns (ok: bool)
      requires Valid()
      modifies this, buffer
      ensures Valid() && (buffer == old(buffer) || fresh(buffer))
      ensures ok <==> old(|Contents()|) + n <= maxSize
      ensures ok ==> Contents() == old(Contents()) && |Area()| >= n
      ensures n <= old(|Area()|) ==> Area() == old(Area()) && gnext == old(gnext)
      ensures ok && n > old(|Area()|) ==>
                |Area()| == Max(n, old(gnext) + old(|Area()|)) && gnext == 0 && gend == pnext
      ensures !ok ==> Contents() == Slipped(old(Contents()), old(gnext)) && Area() == old(Area())
      ensures !ok ==> gnext == old(gnext)
    {
      hide Slipped, Contents, Area;
      if n <= pend - pnext {
        return true;
      }
      ok := Enlarge(n);
    }

    /** The rest of reserve where the put area is too small. */
    method Enlarge(n: nat) returns (ok: bool)
      requires Valid() && n > |Area()|
      modifies this, buffer
      ensures Valid() && (buffer == old(buffer) || fresh(buffer))
      ensures ok <==> old(|Contents()|) + n <= maxSize
      ensures ok ==>
                && Contents() == old(Contents()) && |Area()| == Max(n, old(gnext) + old(|Area()|))
                && gnext == 0 && gend == pnext
      ensures !ok ==>
                && Contents() == Slipped(old(Contents()), old(gnext)) && Area() == old(Area())
                && gnext == old(gnext)
    {
      hide Slipped, Contents, Area;
      var next := Shift();
      if n > pend - next && (n > maxSize || next > maxSize - n) {
        return false;
      }
      Relocate(next, n);
      return true;
    }

    /** The rest of reserve once the bytes are at the start: grow if necessary, set the pointers. */
    method Relocate(next: nat, n: nat)
      requires Valid() && next <= pend && (next + n <= pend || next + n <= maxSize)
      modifies this
      ensures Valid() && (buffer == old(buffer) || fresh(buffer))
      ensures Contents() == old(buffer[..next])
      ensures |Area()| == Max(n, old(pend) - next) && gnext == 0 && gend == pnext
    {
      hide Contents, Area;
      var end := pend;
      if n > end - next {
        end := next + n;
        Resize(Max(end, 1), next);
      }
      SetPointers(next, end);
    }

    /** setg and setp at the end of reserve. */
    method SetPointers(next: nat, end: nat)
      requires next <= end <= maxSize && buffer.Length == Max(end, 1) && buffer.Length <= capacity
      modifies this`gnext, this`gend, this`pnext, this`pend
      ensures Valid() && Contents() == buffer[..next] && |Area()| == end - next && gnext == 0 && gend == pnext
    {
      gnext, gend, pnext, pend := 0, next, next, end;
    }

    /** Brings the input sequence to the start of the array; the pointers are left for later. */
    method Shift() returns (next: nat)
      requires Valid()
      modifies buffer
      ensures next == |old(Contents())| && buffer[..next] == old(Contents())
      ensures buffer[..] == old(Contents()) + old(buffer[pnext - gnext..])
      ensures Contents() == Slipped(old(Contents()), gnext) && Area() == old(Area())
    {
      hide Slipped;
      next := pnext;
      if gnext > 0 {
        next := next - gnext;
        MoveDown(gnext, next);
      }
      assert buffer[..] == buffer[..next] + buffer[next..];
      AfterShift(old(buffer[..]), buffer[..], gnext, pnext, pend);
    }

    /** memmove of `count` bytes from offset `from` to the start. */
    method MoveDown(from: nat, count: nat)
      requires from + count <= buffer.Length
      modifies buffer
      ensures buffer[..count] == old(buffer[from..from + count])
      ensures buffer[count..] == old(buffer[count..])
    {
      forall i | 0 <= i < count {
        buffer[i] := buffer[from + i];
      }
    }

    /** The vector's resize to a larger size: contents kept, new bytes zero, capacity as it likes. */
    method Resize(length: nat, ghost used: nat)
      requires used <= buffer.Length <= length
      modifies this`buffer, this`capacity
      ensures fresh(buffer) && buffer.Length == length <= capacity
      ensures buffer[..old(buffer.Length)] == old(buffer[..])
      ensures forall i :: old(buffer.Length) <= i < length ==> buffer[i] == 0
      ensures length <= old(capacity) ==> capacity == old(capacity)
      ensures buffer[..used] == old(buffer[..used])
    {
      var grown := new Byte[length](_ => 0);
      forall i | 0 <= i < buffer.Length {
        grown[i] := buffer[i];
      }
      buffer := grown;
      if capacity < length {
        var room: nat :| length <= room;
        capacity := room;
      }
    }

    /** The documented condition exactly: it fails iff size() + n > max_size(). */
    method Prepare(n: nat) returns (ok: bool)
      requires Valid()
      modifies this, buffer
      ensures Valid() && (buffer == old(buffer) || fresh(buffer))
      ensures ok <==> old(|Contents()|) + n <= maxSize
      ensures ok ==> Contents() == old(Contents()) && |Area()| >= n
      ensures n <= old(|Area()|) ==> Area() == old(Area()) && gnext == old(gnext)
      ensures ok && n > old(|Area()|) ==> |Area()| == Max(n, old(gnext) + old(|Area()|)) && gnext == 0
      ensures !ok ==> Contents() == Slipped(old(Contents()), old(gnext)) && Area() == old(Area())
      ensures !ok ==> gnext == old(gnext)
      ensures !ok ==> (Contents() == old(Contents()) <==> Repeats(old(Contents()), old(gnext)))
    {
      hide Slipped, Repeats, Contents, Area;
      KeptExactly(Contents(), gnext);
      ok := Reserve(n);
    }

    /** The client writing into the prepared area. */
    method Fill(data: seq<Byte>)
      requires Valid() && |data| <= |Area()|
      modifies buffer
      ensures Contents() == old(Contents())
      ensures Area() == data + old(Area())[|data|..]
    {
      forall i | 0 <= i < |data| {
        buffer[pnext + i] := data[i];
      }
    }

    /** Appends the first bytes of the output sequence, all of it when `n` is too large. */
    method Commit(n: nat)
      requires Valid()
      modifies this`pnext, this`gend
      ensures Valid()
      ensures Contents() == old(Contents()) + old(Area())[..Min(n, old(|Area()|))]
      ensures Area() == old(Area())[Min(n, old(|Area()|))..]
      ensures gend == pnext
    {
      var count := Min(n, pend - pnext);
      pnext := pnext + count;
      gend := pnext;
      Boundary(buffer[..], gnext, pnext - count, count, pend);
    }

    /** Drops the first bytes of the input sequence, all of it when `n` is too large. */
    method Consume(n: nat)
      requires Valid()
      modifies this`gnext, this`gend
      ensures Valid() && Area() == old(Area())
      ensures Contents() == old(Contents())[Min(n, old(|Contents()|))..]
      ensures gnext == old(gnext) + Min(n, old(|Contents()|)) && gend == pnext
    {
      var count := n;
      if gend < pnext {
        gend := pnext;
      }
      if gnext + count > pnext {
        count := pnext - gnext;
      }
      gnext := gnext + count;
    }

    /** The next byte, if any, without removing it; the whole input sequence becomes readable. */
    method Underflow() returns (next: seq<Byte>)
      requires Valid()
      modifies this`gend
      ensures Valid() && Contents() == old(Contents()) && Area() == old(Area())
      ensures next == if Contents() == [] then [] else [Contents()[0]]
      ensures gend == if next != [] then pnext else old(gend)
    {
      if gnext < pnext {
        gend := pnext;
        return [buffer[gnext]];
      }
      return [];
    }

    /** Put one byte, `[]` standing for eof; it fails iff the buffer is at its maximum size. */
    method Overflow(c: seq<Byte>) returns (r: PutResult)
      requires Valid() && |c| <= 1
      modifies this, buffer
      ensures Valid() && (buffer == old(buffer) || fresh(buffer))
      ensures c == [] ==> r == NotEof && Contents() == old(Contents()) && Area() == old(Area())
      ensures c != [] ==> (r == LengthError <==> old(|Contents()|) == maxSize)
      ensures c != [] && r != LengthError ==> r == Stored(c[0]) && Contents() == old(Contents()) + c
      ensures c == [] || old(Area()) != [] || r == LengthError ==> gnext == old(gnext)
      ensures c != [] && old(Area()) != [] ==> Area() == old(Area())[1..]
      ensures c != [] && old(Area()) == [] && r != LengthError ==>
                && |Area()| + 1 == Max(Min(128, NonNegative(maxSize - old(|Contents()|))), old(gnext))
                && gnext == 0
      ensures r == LengthError ==> Contents() == Slipped(old(Contents()), old(gnext)) && Area() == old(Area())
      ensures r == LengthError ==> (Contents() == old(Contents()) <==> Repeats(old(Contents()), old(gnext)))
    {
      hide Slipped, Repeats, Contents, Area;
      KeptExactly(Contents(), gnext);
      if c != [] {
        if pnext == pend {
          var ok := MakeRoom();
          if !ok {
            return LengthError;
          }
        }
        StoreByte(c[0]);
        return Stored(c[0]);
      }
      return NotEof;
    }

    /** Room for at least one more byte: a fixed step, or all that is left of the maximum. */
    method MakeRoom() returns (ok: bool)
      requires Valid() && pnext == pend
      modifies this, buffer
      ensures Valid() && (buffer == old(buffer) || fresh(buffer))
      ensures ok <==> old(|Contents()|) < maxSize
      ensures ok ==> Contents() == old(Contents()) && pnext < pend
      ensures ok ==> |Area()| == Max(Min(128, NonNegative(maxSize - old(|Contents()|))), old(gnext)) && gnext == 0
      ensures !ok ==> Contents() == Slipped(old(Contents()), old(gnext)) && Area() == old(Area())
      ensures !ok ==> gnext == old(gnext)
    {
      hide Slipped, Contents, Area;
      var size := Size();
      var wanted := if size < maxSize && maxSize - size < BUFFER_DELTA then maxSize - size else BUFFER_DELTA;
      ok := Reserve(wanted);
    }

    method StoreByte(b: Byte)
      requires Valid() && pnext < pend
      modifies this`pnext, buffer
      ensures Valid() && Contents() == old(Contents()) + [b] && Area() == old(Area())[1..]
    {
      buffer[pnext] := b;
      pnext := pnext + 1;
    }

    /** The preferred read size: the largest that was asked for, that `Prepare` grants and that is
        at most 512 or the spare capacity, whichever is more. */
    function ReadSizeHelper(m: nat): (n: nat)
      reads this, buffer
      requires Valid()
      ensures |Contents()| + n <= maxSize && n <= m && n <= Max(512, capacity - |Contents()|)
      ensures n == m || |Contents()| + n == maxSize || n == Max(512, capacity - |Contents()|)
      ensures n == 0 <==> m == 0 || |Contents()| == maxSize
    {
      Min(Max(512, capacity - Size()), Min(m, maxSize - Size()))
    }

    /** `prepare(read_size_helper(sb, m))` never throws. */
    method PrepareRead(m: nat) returns (n: nat, ok: bool)
      requires Valid()
      modifies this, buffer
      ensures Valid() && (buffer == old(buffer) || fresh(buffer))
      ensures n == old(ReadSizeHelper(m)) && ok && Contents() == old(Contents()) && |Area()| >= n
    {
      hide Contents, Area, Slipped, Repeats;
      n := ReadSizeHelper(m);
      ok := Prepare(n);
    }

    /** One client call, carried out on the array, is the call of the queue: it fails exactly when
        the queue's does, and otherwise leaves and yields exactly the queue's bytes. */
    method Perform(call: Call) returns (ok: bool, out: seq<Byte>)
      requires Valid()
      modifies this, buffer
      ensures Valid() && (buffer == old(buffer) || fresh(buffer))
      ensures ok <==> Fits(old(Contents()), maxSize, call)
      ensures ok ==> Contents() == Queued(old(Contents()), call) && out == Output(old(Contents()), call)
    {
      hide Contents, Area, Slipped, Repeats;
      out := [];
      match call
      case Append(data) =>
        ok := AppendAll(data);
      case Put(b) =>
        var r := Overflow([b]);
        ok := r != LengthError;
      case Take(n) =>
        out := TakeBytes(n);
        ok := true;
    }

    /** Read the first bytes and drop them. */
    method TakeBytes(n: nat) returns (out: seq<Byte>)
      requires Valid()
      modifies this`gnext, this`gend
      ensures Valid() && out == old(Contents())[..Min(n, old(|Contents()|))]
      ensures Contents() == old(Contents())[Min(n, old(|Contents()|))..]
    {
      out := Contents()[..Min(n, Size())];
      Consume(n);
    }

    /** prepare, fill and commit of the same bytes. */
    method AppendAll(data: seq<Byte>) returns (ok: bool)
      requires Valid()
      modifies this, buffer
      ensures Valid() && (buffer == old(buffer) || fresh(buffer))
      ensures ok <==> old(|Contents()|) + |data| <= maxSize
      ensures ok ==> Contents() == old(Contents()) + data
    {
      hide Contents, Area, Slipped, Repeats;
      ok := Prepare(|data|);
      if ok {
        Fill(data);
        assert Area()[..|data|] == data;
        Commit(|data|);
      }
    }

    /** A whole run of client calls, up to the first that fails, is a run of the queue. */
    method PerformAll(calls: seq<Call>) returns (done: nat, out: seq<Byte>)
      requires Valid()
      modifies this, buffer
      ensures Valid() && done <= |calls|
      ensures AllFit(old(Contents()), maxSize, calls[..done])
      ensures out == AllOutput(old(Contents()), calls[..done])
      ensures done == |calls| ==>
                Contents() == QueueAfter(old(Contents()), calls)
                && out + Contents() == old(Contents()) + AllInput(calls)
      ensures done < |calls| ==> !Fits(QueueAfter(old(Contents()), calls[..done]), maxSize, calls[done])
      ensures out + QueueAfter(old(Contents()), calls[..done]) == old(Contents()) + AllInput(calls[..done])
    {
      hide QueueAfter, AllOutput, AllFit, Queued, Output, Fits;
      ghost var start := Contents();
      NoCalls(start, maxSize, calls);
      done, out := 0, [];
      while done < |calls|
        invariant Valid() && done <= |calls| && (buffer == old(buffer) || fresh(buffer))
        invariant AllFit(start, maxSize, calls[..done])
        invariant Contents() == QueueAfter(start, calls[..done])
        invariant out == AllOutput(start, calls[..done])
      {
        var ok, bytes := Perform(calls[done]);
        OneMoreCall(start, maxSize, calls, done);
        if !ok {
          BytesConserved(start, maxSize, calls[..done]);
          return;
        }
        out := out + bytes;
        done := done + 1;
      }
      assert calls[..|calls|] == calls;
      BytesConserved(start, maxSize, calls);
    }

    /** Any run of member calls, in any order, up to the first that throws. The trace shows what each
        call did; what was given and taken are the bytes of those calls, nothing is thrown before
        its condition holds, and the bytes are conserved. */
    method AnyOrder(calls: seq<Member>)
      returns (done: nat, given: seq<Byte>, taken: seq<Byte>, ghost trace: seq<View>)
      requires Valid()
      requires forall i :: 0 <= i < |calls| && calls[i].Overflow? ==> |calls[i].c| <= 1
      modifies this, buffer
      ensures Valid() && done <= |calls|
      ensures IsTrace(calls[..done], trace, maxSize) && trace[0] == old(Here())
      ensures given == AllGiven(calls[..done], trace) && taken == AllTaken(calls[..done], trace)
      ensures done == |calls| ==> trace[done] == Here()
      ensures done < |calls| ==> Throws(trace[done], maxSize, calls[done]) && Here() == Thrown(trace[done])
      ensures trace[0].contents + given == taken + trace[done].contents
      ensures InBounds(trace, maxSize)
    {
      hide AllGiven, AllTaken, IsTrace, Throws, MemberStep, Given, Taken, Here, InBounds, Thrown;
      done, given, taken, trace := 0, [], [], [Here()];
      FirstView(calls, trace, maxSize);
      while done < |calls|
        invariant Valid() && done <= |calls| && (buffer == old(buffer) || fresh(buffer))
        invariant |trace| == done + 1 && trace[0] == old(Here()) && trace[done] == Here()
        invariant IsTrace(calls[..done], trace, maxSize)
        invariant given == AllGiven(calls[..done], trace) && taken == AllTaken(calls[..done], trace)
        invariant InBounds(trace, maxSize)
      {
        var ok, put, got := OneMember(calls[done]);
        if !ok {
          break;
        }
        NextView(calls, trace, done, Here(), maxSize);
        given, taken, trace := given + put, taken + got, trace + [Here()];
        done := done + 1;
      }
      TraceConserves(calls[..done], trace, maxSize);
    }

    /** One member call, with the bytes it added to and removed from the input sequence. */
    method OneMember(call: Member) returns (ok: bool, put: seq<Byte>, got: seq<Byte>)
      requires Valid() && (call.Overflow? ==> |call.c| <= 1)
      modifies this, buffer
      ensures Valid() && (buffer == old(buffer) || fresh(buffer))
      ensures ok <==> !Throws(old(Here()), maxSize, call)
      ensures if ok then MemberStep(old(Here()), call, Here(), maxSize) else Here() == Thrown(old(Here()))
      ensures put == Given(call, old(Here()).area) && got == Taken(call, old(Here()).contents)
    {
      put, got := Given(call, Area()), Taken(call, Contents());
      if call.Prepare? || call.Overflow? {
        ok := GrowingMember(call);
      } else {
        FixedMember(call);
        ok := true;
      }
    }

    /** The members that may throw. */
    method GrowingMember(call: Member) returns (ok: bool)
      requires Valid() && (call.Prepare? || (call.Overflow? && |call.c| <= 1))
      modifies this, buffer
      ensures Valid() && (buffer == old(buffer) || fresh(buffer))
      ensures ok <==> !Throws(old(Here()), maxSize, call)
      ensures if ok then MemberStep(old(Here()), call, Here(), maxSize) else Here() == Thrown(old(Here()))
    {
      hide Contents, Area, Slipped, Repeats;
      if call.Prepare? {
        ok := Prepare(call.n);
      } else {
        var r := Overflow(call.c);
        ok := r != LengthError;
      }
    }

    /** The members that never throw and never move the array. */
    method FixedMember(call: Member)
      requires Valid() && !call.Prepare? && !call.Overflow?
      modifies this`gnext, this`gend, this`pnext, buffer
      ensures Valid() && MemberStep(old(Here()), call, Here(), maxSize)
    {
      hide Contents, Area;
      match call
      case Fill(data) => Fill(data[..Min(|data|, |Area()|)]);
      case Commit(n) => Commit(n);
      case Consume(n) => Consume(n);
      case Underflow =>
        var _ := Underflow();
    }
  }

  /** A client's run in which a throwing call does not keep the contents: append three bytes,
      consume one, prepare more than there is room for; the two bytes left are then twice the last. */
  method TwiceTheSecond() returns (before: seq<Byte>, granted: bool, sb: BasicStreambuf)
    ensures fresh(sb) && sb.Valid() && sb.maxSize == 3
    ensures before == [1, 2] && !granted && sb.Contents() == [2, 2]
  {
    hide BasicStreambuf.Contents, BasicStreambuf.Area, Repeats;
    sb := new BasicStreambuf(3);
    var appended := sb.AppendAll([0, 1, 2]);
    sb.Consume(1);
    before := sb.Contents();
    granted := sb.Prepare(2);
  }
}
