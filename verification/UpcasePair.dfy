/** upcase.c and process_client of the two servers: one client and the process
    or thread that serves it, talking over two private FIFOs. */
module UpcasePair {
  import opened UpcaseText

  /** How often the client tries to open its FIFO for writing. */
  const MAXTRIES: nat := 5

  /** How often process_client tries to open the other one. */
  function ServerTries(threaded: bool): nat {
    if threaded then 10 else 5
  }

  /** `met`: a writer had the FIFO open at some moment since its reader began to open it. */
  datatype Fifo = Fifo(data: string, reader: bool, writer: bool, met: bool)

  datatype ClientPc =
    | CPost | COpenRaw(tries: nat) | CSend | COpenReply | CBlocked | CReading | CDone | CFailed

  /** A client with its private FIFOs; `next` chunks have been sent. */
  datatype Conn = Conn(
    chunks: seq<string>,
    pc: ClientPc,
    next: nat,
    output: string,
    raw: Fifo,
    reply: Fifo)

  datatype HandlerPc =
    | HOpenRaw | HBlocked | HLocale | HRead | HConvert(i: nat) | HOpenReply(tries: nat) | HWrite | HClose
    | HDone | HFailed

  datatype Handler = Handler(pc: HandlerPc, buffer: string)

  // ------------------------------------------------------------- steps

  /** `n` is how much a read of the reply returns. */
  ghost predicate ClientCan(c: Conn, n: nat) {
    match c.pc
    case CPost => false
    case COpenRaw(_) => true
    case CSend => c.next <= |c.chunks|
    case COpenReply => true
    case CBlocked => c.reply.met
    case CReading => if c.reply.data != "" then 0 < n <= |c.reply.data| else !c.reply.writer
    case CDone => false
    case CFailed => false
  }

  ghost function ClientStep(c: Conn, n: nat): Conn
    requires ClientCan(c, n)
  {
    match c.pc
    case COpenRaw(tries) =>
      if c.raw.reader then
        var raw := c.raw.(writer := true, met := true);
        if tries == MAXTRIES then c.(pc := CFailed, raw := raw.(writer := false)) else c.(pc := CSend, raw := raw)
      else if tries < MAXTRIES then c.(pc := COpenRaw(tries + 1))
      else c.(pc := CFailed)
    case CSend =>
      if c.next == |c.chunks| then c.(pc := CDone, raw := c.raw.(writer := false))
      else if c.raw.reader then
        c.(pc := COpenReply, raw := c.raw.(data := c.raw.data + c.chunks[c.next]), next := c.next + 1)
      else c.(pc := CFailed, raw := c.raw.(writer := false))
    case COpenReply => c.(pc := CBlocked, reply := c.reply.(reader := true, met := c.reply.writer))
    case CBlocked => c.(pc := CReading)
    case CReading =>
      if c.reply.data != "" then
        c.(output := c.output + c.reply.data[..n], reply := c.reply.(data := c.reply.data[n..]))
      else c.(pc := CSend, reply := c.reply.(reader := false))
  }

  ghost predicate HandlerCan(c: Conn, h: Handler) {
    match h.pc
    case HBlocked => c.raw.met
    case HRead => c.raw.data != "" || !c.raw.writer
    case HConvert(i) => i <= |h.buffer|
    case HDone => false
    case HFailed => false
    case _ => true
  }

  /** After a failure a process closes its descriptors, a thread does not. */
  ghost function GiveUp(c: Conn, threaded: bool): Conn {
    if threaded then c else c.(raw := c.raw.(reader := false), reply := c.reply.(writer := false))
  }

  /** What a step of the handler does to the FIFOs. */
  ghost function HandlerConn(c: Conn, h: Handler, threaded: bool): Conn
    requires HandlerCan(c, h)
  {
    match h.pc
    case HOpenRaw => if c.pc.CFailed? then c else c.(raw := c.raw.(reader := true, met := c.raw.writer))
    case HBlocked => c
    case HLocale => c
    case HRead =>
      if c.raw.data == "" then c.(raw := c.raw.(reader := false))
      else c.(raw := c.raw.(data := c.raw.data[if |c.raw.data| < PIPE_BUF then |c.raw.data| else PIPE_BUF..]))
    case HConvert(_) => c
    case HOpenReply(tries) =>
      if c.reply.reader then
        var c' := c.(reply := c.reply.(writer := true, met := true));
        if tries == ServerTries(threaded) then GiveUp(c', threaded) else c'
      else if tries < ServerTries(threaded) then c
      else GiveUp(c, threaded)
    case HWrite =>
      if c.reply.reader then c.(reply := c.reply.(data := c.reply.data + h.buffer)) else GiveUp(c, threaded)
    case HClose => c.(reply := c.reply.(writer := false))
  }

  /** What it does to the handler, with the locale that is in force. */
  ghost function HandlerNext(c: Conn, h: Handler, locale: Locale, threaded: bool): Handler
    requires HandlerCan(c, h)
  {
    match h.pc
    case HOpenRaw => h.(pc := if c.pc.CFailed? then HFailed else HBlocked)
    case HBlocked => h.(pc := HLocale)
    case HLocale => h.(pc := HRead)
    case HRead =>
      if c.raw.data == "" then h.(pc := HDone)
      else Handler(HConvert(0), c.raw.data[..if |c.raw.data| < PIPE_BUF then |c.raw.data| else PIPE_BUF])
    case HConvert(i) =>
      if i < |h.buffer| then Handler(HConvert(i + 1), h.buffer[i := locale(h.buffer[i])])
      else h.(pc := HOpenReply(0))
    case HOpenReply(tries) =>
      if c.reply.reader then h.(pc := if tries == ServerTries(threaded) then HFailed else HWrite)
      else h.(pc := if tries < ServerTries(threaded) then HOpenReply(tries + 1) else HFailed)
    case HWrite => h.(pc := if c.reply.reader then HClose else HFailed)
    case HClose => Handler(HRead, "")
  }

  // ------------------------------------------------------------- opening with retries

  /** What comes of one try to open a FIFO whose other end is open or not. */
  datatype Attempt = Again(tries: nat) | Opened | GaveUp

  function TryOpen(tries: nat, limit: nat, isOpen: bool): Attempt {
    if isOpen then (if tries == limit then GaveUp else Opened)
    else if tries < limit then Again(tries + 1)
    else GaveUp
  }

  /** The tries so far, oldest first; `open` says for each whether the other end was open. */
  function Opening(limit: nat, open: seq<bool>): Attempt {
    if open == [] then Again(0)
    else
      match Opening(limit, open[..|open| - 1])
      case Again(tries) => TryOpen(tries, limit, open[|open| - 1])
      case done => done
  }

  ghost predicate OpenInTime(limit: nat, open: seq<bool>) {
    exists k :: 0 <= k < |open| && k < limit && open[k]
  }

  /** Opening succeeds if and only if the other end is open at some try before the
      last one; at the last try it is too late. */
  lemma {:induction false} OpenedIffInTime(limit: nat, open: seq<bool>)
    ensures Opening(limit, open).Opened? <==> OpenInTime(limit, open)
    ensures Opening(limit, open).GaveUp? <==> !OpenInTime(limit, open) && |open| > limit
    ensures Opening(limit, open).Again? ==> Opening(limit, open) == Again(|open|)
  {
    if open != [] {
      var last := |open| - 1;
      OpenedIffInTime(limit, open[..last]);
      assert forall k :: 0 <= k < last ==> open[..last][k] == open[k];
      if OpenInTime(limit, open[..last]) {
        var k :| 0 <= k < last && k < limit && open[..last][k];
        assert open[k];
      }
      if OpenInTime(limit, open) && !OpenInTime(limit, open[..last]) {
        var k :| 0 <= k < |open| && k < limit && open[k];
        assert k == last;
      }
    }
  }

  /** The loop of the client and of process_client. The FIFO can be open and the
      loop taken for failed: exactly when the other end is open at the last try first. */
  method OpenFifo(open: seq<bool>, limit: nat) returns (ok: bool, fdOpen: bool)
    requires |open| == limit + 1
    ensures ok <==> OpenInTime(limit, open)
    ensures fdOpen && !ok <==> open[limit] && !OpenInTime(limit, open)
    ensures fdOpen <==> ok || open[limit]
  {
    var tries := 0;
    while !open[tries] && tries < limit
      invariant 0 <= tries <= limit && forall k :: 0 <= k < tries ==> !open[k]
    {
      tries := tries + 1;
    }
    fdOpen := open[tries];
    ok := tries != limit;
    assert ok ==> open[tries];
  }

  lemma ClientTries(c: Conn, n: nat)
    requires c.pc.COpenRaw?
    ensures ClientCan(c, n)
    ensures match TryOpen(c.pc.tries, MAXTRIES, c.raw.reader)
            case Again(tries) => ClientStep(c, n).pc == COpenRaw(tries)
            case Opened => ClientStep(c, n).pc == CSend
            case GaveUp => ClientStep(c, n).pc == CFailed
  {
  }

  lemma HandlerTries(c: Conn, h: Handler, locale: Locale, threaded: bool)
    requires h.pc.HOpenReply?
    ensures HandlerCan(c, h)
    ensures match TryOpen(h.pc.tries, ServerTries(threaded), c.reply.reader)
            case Again(tries) => HandlerNext(c, h, locale, threaded).pc == HOpenReply(tries)
            case Opened => HandlerNext(c, h, locale, threaded).pc == HWrite
            case GaveUp => HandlerNext(c, h, locale, threaded).pc == HFailed
  {
  }

  // ------------------------------------------------------------- invariant

  /** `d` is what one of the locales makes of `c`. */
  ghost predicate Upper(locales: seq<Locale>, c: char, d: char) {
    exists j :: 0 <= j < |locales| && d == locales[j](c)
  }

  /** `b` is `a` converted character by character. */
  ghost predicate UpperAll(locales: seq<Locale>, a: string, b: string) {
    && |a| == |b|
    && (a != "" ==>
          && UpperAll(locales, a[..|a| - 1], b[..|a| - 1])
          && Upper(locales, a[|a| - 1], b[|a| - 1]))
  }

  /** `out` is the uppercase of the beginning of `text`. */
  ghost predicate UpperPrefix(locales: seq<Locale>, text: string, out: string) {
    |out| <= |text| && UpperAll(locales, text[..|out|], out)
  }

  ghost function Sent(c: Conn): string
    requires c.next <= |c.chunks|
  {
    Concat(c.chunks[..c.next])
  }

  /** What has come back: read by the client or waiting in the FIFO. */
  ghost function Answered(c: Conn): string {
    c.output + c.reply.data
  }

  predicate Connecting(c: Conn) {
    c.pc.CPost? || c.pc.COpenRaw?
  }

  predicate Waiting(c: Conn) {
    c.pc.COpenReply? || c.pc.CBlocked? || c.pc.CReading?
  }

  /** A chunk is in the handler's buffer. */
  predicate Holding(h: Handler) {
    h.pc.HConvert? || h.pc.HOpenReply? || h.pc.HWrite?
  }

  /** How much of the buffer is converted. */
  function ConvertedUpTo(h: Handler): nat {
    if h.pc.HConvert? then h.pc.i else |h.buffer|
  }

  /** The buffer is the last part of what was sent, converted up to a point. */
  ghost predicate BufferOk(locales: seq<Locale>, text: string, h: Handler) {
    Holding(h) ==>
      var i := ConvertedUpTo(h);
      && i <= |h.buffer| <= |text|
      && var part := text[|text| - |h.buffer|..];
      UpperAll(locales, part[..i], h.buffer[..i]) && h.buffer[i..] == part[i..]
  }

  /** A client that nobody serves yet. */
  ghost predicate Unserved(c: Conn) {
    && ChunksOk(c.chunks)
    && (Connecting(c) || c.pc.CFailed?) && c.next == 0 && c.output == ""
    && (c.pc.COpenRaw? ==> c.pc.tries <= MAXTRIES)
    && c.raw.data == "" && !c.raw.reader && !c.raw.writer && !c.raw.met
    && c.reply.data == "" && !c.reply.reader && !c.reply.writer
  }

  /** Which ends of the FIFOs are open. */
  ghost predicate EndsOk(c: Conn, h: Handler, threaded: bool) {
    && (h.pc.HOpenRaw? ==> !c.raw.reader)
    && (c.raw.reader ==> !h.pc.HOpenRaw? && !h.pc.HDone? && (h.pc.HFailed? ==> threaded))
    && (!h.pc.HOpenRaw? && !h.pc.HDone? && !h.pc.HFailed? ==> c.raw.reader)
    && (c.raw.writer <==> c.pc.CSend? || Waiting(c))
    && (c.raw.writer || c.pc.CDone? ==> c.raw.met || h.pc.HFailed? || h.pc.HDone?)
    && (h.pc.HConvert? ==> h.pc.i <= |h.buffer|)
    && (c.reply.reader <==> c.pc.CBlocked? || c.pc.CReading?)
    && (c.reply.writer ==> h.pc.HWrite? || h.pc.HClose? || (h.pc.HFailed? && threaded))
    && (h.pc.HWrite? || h.pc.HClose? ==> c.reply.writer)
    && (c.reply.writer ==> c.reply.reader)
    && (Connecting(c) ==> !c.raw.met)
    && (c.pc.COpenRaw? ==> c.pc.tries <= MAXTRIES)
    && (h.pc.HOpenReply? ==> h.pc.tries <= ServerTries(threaded))
  }

  /** Client and handler take turns: who has the chunk last sent. */
  ghost predicate TurnsOk(c: Conn, h: Handler, threaded: bool) {
    && (Connecting(c) ==> c.next == 0 && (h.pc.HOpenRaw? || h.pc.HBlocked?))
    && (h.pc.HOpenRaw? ==> Connecting(c) || c.pc.CFailed?)
    && (h.pc.HBlocked? || h.pc.HLocale? ==> c.output == "" && c.next <= 1)
    && (h.pc.HDone? ==> c.pc.CDone? || c.pc.CFailed?)
    && (c.pc.CFailed? ==> c.next == 0 || h.pc.HFailed?)
    && (Holding(h) || h.pc.HClose? || c.raw.data != "" || c.reply.data != "" ==> Waiting(c))
    && (Waiting(c) ==> c.next > 0)
    && (c.pc.CDone? ==> c.next == |c.chunks|)
    && (h.pc.HFailed? && (c.pc.CSend? || c.pc.CDone?) ==> !threaded)
    && (h.pc.HFailed? && ((c.pc.CBlocked? && c.reply.met) || c.pc.CReading?) ==> c.reply.writer == threaded)
  }

  /** Where the chunk is while the client waits for it. */
  ghost predicate ReplyOk(c: Conn, h: Handler)
    requires c.next <= |c.chunks|
  {
    && (c.reply.data != "" ==> c.raw.data == "" && (h.pc.HClose? || h.pc.HRead?))
    && (!h.pc.HFailed? ==>
          |Answered(c)| + (if Holding(h) then |h.buffer| else 0) + |c.raw.data| == |Sent(c)|
          && (c.raw.data != "" ==> h.pc.HBlocked? || h.pc.HLocale? || h.pc.HRead?)
          && (Holding(h) ==> h.buffer != ""))
    && (Waiting(c) && !h.pc.HFailed? ==>
          if h.pc.HWrite? || h.pc.HClose? || (h.pc.HRead? && c.raw.data == "")
          then (c.pc.CBlocked? && c.reply.met) || c.pc.CReading?
          else c.pc.COpenReply? || (c.pc.CBlocked? && !c.reply.met))
    && (h.pc.HFailed? ==>
          (c.pc.CFailed? && c.next == 0)
          || (c.raw.data == "" && c.reply.data == "" && |c.output| < |Sent(c)|))
    && (Waiting(c) ==> 0 < c.next && |c.chunks[c.next - 1]| + |c.output| >= |Sent(c)|)
    && |c.raw.data| < PIPE_BUF
  }

  ghost predicate RawOk(text: string, raw: string) {
    |raw| <= |text| && raw == text[|text| - |raw|..]
  }

  ghost predicate Control(c: Conn, h: Handler, threaded: bool) {
    && ChunksOk(c.chunks) && !c.pc.CPost?
    && c.next <= |c.chunks|
    && EndsOk(c, h, threaded) && TurnsOk(c, h, threaded) && ReplyOk(c, h)
  }

  ghost predicate Text(text: string, c: Conn, h: Handler, locales: seq<Locale>) {
    RawOk(text, c.raw.data) && BufferOk(locales, text, h) && UpperPrefix(locales, text, Answered(c))
  }

  ghost predicate PairOk(c: Conn, h: Handler, locales: seq<Locale>, threaded: bool) {
    Control(c, h, threaded) && Text(Sent(c), c, h, locales)
  }

  lemma SendControl(c: Conn, h: Handler, n: nat, threaded: bool)
    requires Control(c, h, threaded) && ClientCan(c, n) && c.pc.CSend?
    ensures Control(ClientStep(c, n), h, threaded)
  {
    if c.next < |c.chunks| {
      var k := c.next;
      assert c.chunks[..k + 1][..k] == c.chunks[..k];
      assert Concat(c.chunks[..k + 1]) == Concat(c.chunks[..k]) + c.chunks[k];
    }
  }

  lemma OpenRawControl(c: Conn, h: Handler, n: nat, threaded: bool)
    requires Control(c, h, threaded) && ClientCan(c, n) && c.pc.COpenRaw?
    ensures Control(ClientStep(c, n), h, threaded)
  {
  }

  lemma ReadingControl(c: Conn, h: Handler, n: nat, threaded: bool)
    requires Control(c, h, threaded) && ClientCan(c, n) && c.pc.CReading?
    ensures Control(ClientStep(c, n), h, threaded)
  {
  }

  lemma ClientControl(c: Conn, h: Handler, n: nat, threaded: bool)
    requires Control(c, h, threaded) && ClientCan(c, n) && !c.pc.CSend? && !c.pc.COpenRaw?
    ensures Control(ClientStep(c, n), h, threaded)
  {
    if c.pc.CReading? {
      ReadingControl(c, h, n, threaded);
    }
  }

  lemma HandlerControl(c: Conn, h: Handler, locale: Locale, threaded: bool)
    requires Control(c, h, threaded) && HandlerCan(c, h)
    ensures Control(HandlerConn(c, h, threaded), HandlerNext(c, h, locale, threaded), threaded)
  {
    if h.pc.HOpenReply? {
      OpenReplyControl(c, h, locale, threaded);
    } else if h.pc.HRead? || h.pc.HWrite? {
      TransferControl(c, h, locale, threaded);
    } else if h.pc.HConvert? {
      ConvertControl(c, h, locale, threaded);
    } else {
      OtherControl(c, h, locale, threaded);
    }
  }

  lemma OpenReplyControl(c: Conn, h: Handler, locale: Locale, threaded: bool)
    requires Control(c, h, threaded) && HandlerCan(c, h) && h.pc.HOpenReply?
    ensures Control(HandlerConn(c, h, threaded), HandlerNext(c, h, locale, threaded), threaded)
  {
  }

  lemma TransferControl(c: Conn, h: Handler, locale: Locale, threaded: bool)
    requires Control(c, h, threaded) && HandlerCan(c, h) && (h.pc.HRead? || h.pc.HWrite?)
    ensures Control(HandlerConn(c, h, threaded), HandlerNext(c, h, locale, threaded), threaded)
  {
  }

  lemma ConvertControl(c: Conn, h: Handler, locale: Locale, threaded: bool)
    requires Control(c, h, threaded) && HandlerCan(c, h) && h.pc.HConvert?
    ensures Control(HandlerConn(c, h, threaded), HandlerNext(c, h, locale, threaded), threaded)
  {
  }

  lemma OtherControl(c: Conn, h: Handler, locale: Locale, threaded: bool)
    requires Control(c, h, threaded) && HandlerCan(c, h)
    requires !h.pc.HOpenReply? && !h.pc.HRead? && !h.pc.HWrite? && !h.pc.HConvert?
    ensures Control(HandlerConn(c, h, threaded), HandlerNext(c, h, locale, threaded), threaded)
  {
  }

  lemma {:induction false} UpperConcat(locales: seq<Locale>, a: string, b: string, a': string, b': string)
    requires UpperAll(locales, a, b) && UpperAll(locales, a', b')
    ensures UpperAll(locales, a + a', b + b')
    decreases |a'|
  {
    if a' == "" {
      assert a + a' == a && b + b' == b;
    } else {
      var last := |a'| - 1;
      UpperConcat(locales, a, b, a'[..last], b'[..last]);
      assert (a + a')[..|a + a'| - 1] == a + a'[..last];
      assert (b + b')[..|a + a'| - 1] == b + b'[..last];
    }
  }

  lemma {:induction false} UpperAt(locales: seq<Locale>, a: string, b: string, k: nat)
    requires UpperAll(locales, a, b) && k < |a|
    ensures Upper(locales, a[k], b[k])
    decreases |a|
  {
    if k < |a| - 1 {
      UpperAt(locales, a[..|a| - 1], b[..|a| - 1], k);
    }
  }

  lemma LongerText(text: string, more: string, out: string, locales: seq<Locale>)
    requires UpperPrefix(locales, text, out)
    ensures UpperPrefix(locales, text + more, out)
    ensures RawOk(text + more, more) && RawOk(text + more, "")
  {
    assert (text + more)[..|out|] == text[..|out|];
  }

  lemma SentStep(c: Conn, n: nat)
    requires ClientCan(c, n) && c.pc.CSend? && c.next < |c.chunks| && c.raw.reader
    ensures ClientStep(c, n).next == c.next + 1 && ClientStep(c, n).chunks == c.chunks
    ensures Sent(ClientStep(c, n)) == Sent(c) + c.chunks[c.next] && Answered(ClientStep(c, n)) == Answered(c)
    ensures ClientStep(c, n).raw.data == c.raw.data + c.chunks[c.next]
  {
    assert c.chunks[..c.next + 1][..c.next] == c.chunks[..c.next];
  }

  lemma SendText(c: Conn, h: Handler, n: nat, locales: seq<Locale>, threaded: bool)
    requires Control(c, h, threaded) && ClientCan(c, n) && c.pc.CSend?
    requires Text(Sent(c), c, h, locales)
    ensures ClientStep(c, n).next <= |c.chunks| && Text(Sent(ClientStep(c, n)), ClientStep(c, n), h, locales)
  {
    if c.next < |c.chunks| && c.raw.reader {
      var chunk := c.chunks[c.next];
      SentStep(c, n);
      LongerText(Sent(c), chunk, Answered(c), locales);
      assert c.raw.data == "" && "" + chunk == chunk && !Holding(h);
    }
  }

  lemma ClientText(text: string, c: Conn, h: Handler, n: nat, locales: seq<Locale>)
    requires Text(text, c, h, locales) && ClientCan(c, n) && !c.pc.CSend?
    ensures Text(text, ClientStep(c, n), h, locales)
  {
    assert Answered(ClientStep(c, n)) == Answered(c);
  }

  lemma ReadText(text: string, raw: string, locales: seq<Locale>)
    requires RawOk(text, raw) && |raw| < PIPE_BUF
    ensures BufferOk(locales, text, Handler(HConvert(0), raw)) && RawOk(text, "")
  {
  }

  lemma UpperOne(locales: seq<Locale>, x: char, locale: Locale)
    requires locale in locales
    ensures UpperAll(locales, [x], [locale(x)])
  {
    assert Upper(locales, x, locale(x));
    assert [x][..0] == "" && [locale(x)][..0] == "";
  }

  lemma SameTail(a: string, b: string, i: nat)
    requires i < |a| == |b| && a[i..] == b[i..]
    ensures a[i] == b[i] && a[i + 1..] == b[i + 1..]
  {
    assert a[i..][0] == b[i..][0];
    forall k | i + 1 <= k < |a| ensures a[k] == b[k] {
      assert a[i..][k - i] == b[i..][k - i];
    }
  }

  /** One more character of a partly converted buffer is converted. */
  lemma ConvertAt(part: string, buffer: string, i: nat, locale: Locale, locales: seq<Locale>)
    requires i < |buffer| == |part| && locale in locales
    requires UpperAll(locales, part[..i], buffer[..i]) && buffer[i..] == part[i..]
    ensures
      var next := buffer[i := locale(buffer[i])];
      UpperAll(locales, part[..i + 1], next[..i + 1]) && next[i + 1..] == part[i + 1..]
  {
    var x := buffer[i];
    var next := buffer[i := locale(x)];
    SameTail(buffer, part, i);
    UpperOne(locales, x, locale);
    UpperConcat(locales, part[..i], buffer[..i], [x], [locale(x)]);
    assert part[..i + 1] == part[..i] + [x];
    assert next[..i + 1] == buffer[..i] + [locale(x)];
    assert next[i + 1..] == buffer[i + 1..];
  }

  lemma ConvertText(text: string, h: Handler, locale: Locale, locales: seq<Locale>)
    requires BufferOk(locales, text, h) && h.pc.HConvert? && h.pc.i < |h.buffer| && locale in locales
    ensures BufferOk(locales, text, Handler(HConvert(h.pc.i + 1), h.buffer[h.pc.i := locale(h.buffer[h.pc.i])]))
  {
    ConvertAt(text[|text| - |h.buffer|..], h.buffer, h.pc.i, locale, locales);
  }

  lemma WriteText(text: string, out: string, h: Handler, locales: seq<Locale>)
    requires BufferOk(locales, text, h) && h.pc.HWrite? && UpperPrefix(locales, text, out)
    requires |out| + |h.buffer| == |text|
    ensures UpperPrefix(locales, text, out + h.buffer)
  {
    var part := text[|out|..];
    assert part[..|h.buffer|] == part && h.buffer[..|h.buffer|] == h.buffer;
    UpperConcat(locales, text[..|out|], out, part, h.buffer);
    assert text[..|out|] + part == text && text[..|text|] == text;
  }

  /** Steps that move no text. */
  lemma QuietText(text: string, c: Conn, h: Handler, locale: Locale, locales: seq<Locale>, threaded: bool)
    requires Text(text, c, h, locales) && HandlerCan(c, h)
    requires !h.pc.HRead? && (h.pc.HConvert? ==> h.pc.i == |h.buffer|) && (h.pc.HWrite? ==> !c.reply.reader)
    ensures Text(text, HandlerConn(c, h, threaded), HandlerNext(c, h, locale, threaded), locales)
  {
    var c', h' := HandlerConn(c, h, threaded), HandlerNext(c, h, locale, threaded);
    assert Answered(c') == Answered(c) && c'.raw.data == c.raw.data;
    assert Holding(h') ==> Holding(h) && h'.buffer == h.buffer;
  }

  lemma ReadStepText(text: string, c: Conn, h: Handler, locale: Locale, locales: seq<Locale>, threaded: bool)
    requires Text(text, c, h, locales) && HandlerCan(c, h) && h.pc.HRead? && |c.raw.data| < PIPE_BUF
    ensures Text(text, HandlerConn(c, h, threaded), HandlerNext(c, h, locale, threaded), locales)
  {
    ReadText(text, c.raw.data, locales);
    assert Answered(HandlerConn(c, h, threaded)) == Answered(c);
    assert c.raw.data[..|c.raw.data|] == c.raw.data;
  }

  lemma WriteStepText(text: string, c: Conn, h: Handler, locale: Locale, locales: seq<Locale>, threaded: bool)
    requires Text(text, c, h, locales) && HandlerCan(c, h) && h.pc.HWrite? && c.reply.reader
    requires |Answered(c)| + |h.buffer| == |text|
    ensures Text(text, HandlerConn(c, h, threaded), HandlerNext(c, h, locale, threaded), locales)
  {
    var c', h' := HandlerConn(c, h, threaded), HandlerNext(c, h, locale, threaded);
    assert c'.raw == c.raw && !Holding(h');
    assert BufferOk(locales, text, h');
    assert Answered(c') == Answered(c) + h.buffer;
    WriteText(text, Answered(c), h, locales);
  }

  lemma HandlerText(text: string, c: Conn, h: Handler, locale: Locale, locales: seq<Locale>, threaded: bool)
    requires Text(text, c, h, locales) && HandlerCan(c, h)
    requires h.pc.HConvert? ==> locale in locales
    requires |c.raw.data| < PIPE_BUF && (h.pc.HConvert? ==> h.pc.i <= |h.buffer|)
    requires h.pc.HWrite? ==> |Answered(c)| + |h.buffer| == |text|
    ensures Text(text, HandlerConn(c, h, threaded), HandlerNext(c, h, locale, threaded), locales)
  {
    if h.pc.HRead? {
      ReadStepText(text, c, h, locale, locales, threaded);
    } else if h.pc.HWrite? && c.reply.reader {
      WriteStepText(text, c, h, locale, locales, threaded);
    } else if h.pc.HConvert? && h.pc.i < |h.buffer| {
      ConvertText(text, h, locale, locales);
    } else {
      QuietText(text, c, h, locale, locales, threaded);
    }
  }

  lemma ClientKeepsPair(c: Conn, h: Handler, n: nat, locales: seq<Locale>, threaded: bool)
    requires PairOk(c, h, locales, threaded) && ClientCan(c, n)
    ensures PairOk(ClientStep(c, n), h, locales, threaded)
  {
    if c.pc.CSend? {
      SendControl(c, h, n, threaded);
      SendText(c, h, n, locales, threaded);
    } else {
      if c.pc.COpenRaw? {
        OpenRawControl(c, h, n, threaded);
      } else {
        ClientControl(c, h, n, threaded);
      }
      assert Sent(ClientStep(c, n)) == Sent(c);
      ClientText(Sent(c), c, h, n, locales);
    }
  }

  lemma HandlerKeepsPair(c: Conn, h: Handler, locale: Locale, locales: seq<Locale>, threaded: bool)
    requires PairOk(c, h, locales, threaded) && HandlerCan(c, h)
    requires h.pc.HConvert? ==> locale in locales
    ensures PairOk(HandlerConn(c, h, threaded), HandlerNext(c, h, locale, threaded), locales, threaded)
  {
    HandlerControl(c, h, locale, threaded);
    ControlFacts(c, h, threaded);
    SameSent(c, h, threaded);
    HandlerText(Sent(c), c, h, locale, locales, threaded);
  }

  lemma ControlFacts(c: Conn, h: Handler, threaded: bool)
    requires Control(c, h, threaded)
    ensures |c.raw.data| < PIPE_BUF && (h.pc.HConvert? ==> h.pc.i <= |h.buffer|)
    ensures h.pc.HWrite? ==> |Answered(c)| + |h.buffer| == |Sent(c)|
  {
  }

  lemma SameSent(c: Conn, h: Handler, threaded: bool)
    requires HandlerCan(c, h) && c.next <= |c.chunks|
    ensures HandlerConn(c, h, threaded).chunks == c.chunks && HandlerConn(c, h, threaded).next == c.next
    ensures Sent(HandlerConn(c, h, threaded)) == Sent(c)
  {
  }

  lemma UnservedStays(c: Conn, n: nat)
    requires Unserved(c) && ClientCan(c, n)
    ensures Unserved(ClientStep(c, n)) && !ClientStep(c, n).pc.CPost?
  {
  }

  /** The server takes on a client that nobody serves. */
  lemma PairStarts(c: Conn, locales: seq<Locale>, threaded: bool)
    requires Unserved(c) && !c.pc.CPost?
    ensures PairOk(c, Handler(HOpenRaw, ""), locales, threaded)
  {
    assert c.chunks[..0] == [] && Sent(c) == "" && Answered(c) == "";
    StartControl(c, threaded);
    StartText(c, locales);
  }

  lemma StartControl(c: Conn, threaded: bool)
    requires Unserved(c) && !c.pc.CPost? && |c.chunks[..0]| == 0
    ensures Control(c, Handler(HOpenRaw, ""), threaded)
  {
  }

  lemma StartText(c: Conn, locales: seq<Locale>)
    requires c.raw.data == "" && Answered(c) == ""
    ensures Text("", c, Handler(HOpenRaw, ""), locales)
  {
    assert UpperAll(locales, "", "");
    assert ""[..0] == "";
  }

  // ------------------------------------------------------------- results on a pair

  /** At most one chunk of a client is under way, and it is in one place. */
  lemma OneChunkUnderWay(c: Conn, h: Handler, threaded: bool)
    requires Control(c, h, threaded)
    ensures
      var held := if Holding(h) then |h.buffer| else 0;
      && (c.raw.data != "" ==> !Holding(h) && c.reply.data == "")
      && (c.reply.data != "" ==> !Holding(h) && c.raw.data == "")
      && (Waiting(c) && !h.pc.HFailed? ==>
            0 < c.next <= |c.chunks| && |c.raw.data| + held + |c.reply.data| <= |c.chunks[c.next - 1]|)
      && (!Waiting(c) ==> c.raw.data == "" && !Holding(h) && c.reply.data == "")
  {
  }

  /** A client that has ended got everything back exactly if its server did not
      give up; a thread that gives up never lets it end. */
  lemma DoneIff(c: Conn, h: Handler, threaded: bool)
    requires Control(c, h, threaded) && c.pc.CDone?
    ensures c.next == |c.chunks|
    ensures |c.output| == |Sent(c)| <==> !h.pc.HFailed?
    ensures threaded ==> !h.pc.HFailed?
  {
  }

  /** While nobody gave up, client or handler can always go on. */
  lemma PairNeverStuck(c: Conn, h: Handler, threaded: bool)
    requires Control(c, h, threaded) && !c.pc.CFailed? && !h.pc.HFailed? && !(c.pc.CDone? && h.pc.HDone?)
    ensures HandlerCan(c, h) || exists n :: ClientCan(c, n)
  {
    if c.pc.CReading? && c.reply.data != "" {
      assert ClientCan(c, 1);
    } else {
      assert !HandlerCan(c, h) ==> ClientCan(c, 0);
    }
  }
}
