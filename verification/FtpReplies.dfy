/** The pieces of the FTP core: the reply ring, the line parser and the reply texts. */
module FtpReplies {
  import opened Bytes
  import opened Text

  const SLOTS: nat := 8
  const REPLY_CAPACITY: nat := 128
  const CONTROL_CAPACITY: nat := 256

  // ---- answers ----

  /** Everything that the server says. */
  datatype Answer =
    | SERVICE_READY | GOODBYE | ALREADY_ACCEPTED | NO_TRANSFER | TRANSFER_ABORTED | NOTHING_DONE | SYSTEM
    | FEATURES | IN_PROGRESS | SEND_PASSWORD | ANONYMOUS_ONLY | LOGGED_IN | USER_FIRST | LOGIN_FIRST
    | WORKING_DIRECTORY | ROOT_DIRECTORY | ROOT_ONLY | BINARY_MODE | BINARY_ONLY | UNAVAILABLE | SELECT_BINARY
    | PASSIVE_FIRST | OPERATION_UNAVAILABLE | STORAGE_FAILED | OPENING | UNSUPPORTED | MALFORMED | CANNOT_LISTEN
    | OPERATION_FAILED | OVER_CAPACITY | PREMATURE | COMPLETE | DATA_FAILED | CONNECTION_FAILED | CLOSE_TIMEOUT
    | OUTPUT_TIMEOUT | TRANSFER_TIMEOUT | PASSIVE_TIMEOUT
    | FILE_SIZE(size: u32) | LISTENING(extended: bool, address: seq<u8>, port: nat)

  /** How long an answer is on the wire. */
  function Length(a: Answer): nat {
    match a
    case NOTHING_DONE | WORKING_DIRECTORY => 9
    case GOODBYE => 14
    case LOGGED_IN | ROOT_ONLY => 16
    case NO_TRANSFER | BINARY_MODE => 18
    case SYSTEM | LOGIN_FIRST => 19
    case SERVICE_READY | SEND_PASSWORD | SELECT_BINARY => 20
    case ANONYMOUS_ONLY | ROOT_DIRECTORY => 21
    case BINARY_ONLY | UNAVAILABLE | OPERATION_FAILED => 23
    case COMPLETE => 24
    case TRANSFER_TIMEOUT => 25
    case PREMATURE | CLOSE_TIMEOUT => 27
    case IN_PROGRESS | OPERATION_UNAVAILABLE | UNSUPPORTED | OUTPUT_TIMEOUT => 28
    case PASSIVE_FIRST | MALFORMED | DATA_FAILED | CONNECTION_FAILED => 29
    case STORAGE_FAILED => 31
    case USER_FIRST => 32
    case ALREADY_ACCEPTED => 33
    case CANNOT_LISTEN | PASSIVE_TIMEOUT => 35
    case OVER_CAPACITY => 36
    case OPENING => 37
    case TRANSFER_ABORTED | FEATURES => 44
    case FILE_SIZE(size) => 6 + |Digits(size)|
    case LISTENING(extended, address, port) => |ListenerText(extended, address, port)|
  }

  /** The code that an answer begins with, by section 4.2 of RFC 959. */
  function Code(a: Answer): nat {
    match a
    case OPENING => 150
    case NOTHING_DONE | BINARY_MODE => 200
    case FEATURES => 211
    case SYSTEM => 215
    case SERVICE_READY => 220
    case GOODBYE => 221
    case ALREADY_ACCEPTED | NO_TRANSFER => 225
    case COMPLETE => 226
    case LOGGED_IN => 230
    case ROOT_DIRECTORY => 250
    case WORKING_DIRECTORY => 257
    case SEND_PASSWORD => 331
    case PASSIVE_FIRST | CANNOT_LISTEN | CONNECTION_FAILED | PASSIVE_TIMEOUT => 425
    case TRANSFER_ABORTED | DATA_FAILED | CLOSE_TIMEOUT | OUTPUT_TIMEOUT | TRANSFER_TIMEOUT => 426
    case OPERATION_UNAVAILABLE | STORAGE_FAILED | OPERATION_FAILED | PREMATURE => 451
    case MALFORMED => 500
    case UNSUPPORTED => 502
    case IN_PROGRESS | USER_FIRST => 503
    case BINARY_ONLY | SELECT_BINARY => 504
    case ANONYMOUS_ONLY | LOGIN_FIRST => 530
    case ROOT_ONLY | UNAVAILABLE => 550
    case OVER_CAPACITY => 552
    case FILE_SIZE(_) => 213
    case LISTENING(extended, _, _) => if extended then 229 else 227
  }

  function ListenerText(extended: bool, address: seq<u8>, port: nat): string {
    if extended then "229 Entering Extended Passive Mode (|||" + Digits(port) + "|).\r\n"
    else if |address| != 4 then ""
    else "227 Entering Passive Mode (" + Digits(address[0]) + "," + Digits(address[1]) + "," + Digits(address[2]) + ","
         + Digits(address[3]) + "," + Digits(port / 256) + "," + Digits(port % 256) + ").\r\n"
  }

  /** The answers that can be given: a listener has an address and a 16-bit port. */
  predicate Sayable(a: Answer) {
    a.LISTENING? ==> a.port < 0x1_0000 && (a.extended || |a.address| == 4)
  }

  /** One answer alone reports a completed transfer, as section 5.4 of RFC 959 means it. */
  lemma OnlyComplete(a: Answer)
    ensures Code(a) == 226 <==> a == COMPLETE
  {}

  /** Every answer fits a slot of the ring. */
  lemma AnswerFits(a: Answer)
    requires Sayable(a)
    ensures 0 < Length(a) <= REPLY_CAPACITY
  {
    if a.FILE_SIZE? { FewDigits(a.size, 10); }
    if a.LISTENING? { ListenerFits(a.extended, a.address, a.port); }
  }

  lemma ListenerFits(extended: bool, address: seq<u8>, port: nat)
    requires port < 0x1_0000 && (extended || |address| == 4)
    ensures 0 < |ListenerText(extended, address, port)| <= REPLY_CAPACITY
  {
    FewDigits(port, 5);
    FewDigits(port / 256, 3);
    FewDigits(port % 256, 3);
    if !extended {
      FewDigits(address[0], 3);
      FewDigits(address[1], 3);
      FewDigits(address[2], 3);
      FewDigits(address[3], 3);
    }
  }

  // ---- the reply ring ----

  datatype Reply = Reply(answer: Answer, length: nat, offset: nat, start: bool)
  {
    /** How much of it is left to send. */
    function Rest(): int { length as int - offset as int }
  }

  function Queued(answer: Answer, start: bool): Reply { Reply(answer, Length(answer), 0, start) }

  /** The queue with no reply left that would open a transfer. */
  function Quieted(q: seq<Reply>): (r: seq<Reply>)
    ensures |r| == |q|
  {
    seq(|q|, i requires 0 <= i < |q| => q[i].(start := false))
  }

  /** The slot of the i-th reply, (head + i) % SLOTS. */
  function Place(head: nat, i: nat): nat { if head + i < SLOTS then head + i else head + i - SLOTS }

  class Ring {
    const slots: array<Reply>
    var head: nat
    var count: nat
    /** The replies in order, oldest first. */
    ghost var queue: seq<Reply>

    constructor ()
      ensures Valid() && queue == [] && fresh(slots)
    {
      slots := new Reply[SLOTS](_ => Reply(NO_TRANSFER, 0, 0, false));
      head, count, queue := 0, 0, [];
      new;
      ValidOpen();
    }

    ghost predicate Meaning()
      reads this, slots
    {
      && slots.Length == SLOTS && head < SLOTS && count == |queue| <= SLOTS
      && forall i :: 0 <= i < count ==>
           queue[i] == slots[Place(head, i)] && queue[i].offset < queue[i].length <= REPLY_CAPACITY
    }

    ghost predicate Valid()
      reads this, slots
    {
      ValidBehind(2 + slots.Length) == Yes
    }

    /** The same, behind a descent that the verifier does not follow (see ValidOpen). */
    ghost function ValidBehind(depth: nat): (v: Verdict)
      reads this, slots
      decreases depth
      ensures v == Yes ==> count == |queue| <= SLOTS
    {
      if depth != 0 then ValidBehind(depth - 1) else if Meaning() then Yes else No
    }

    lemma {:induction false} ValidDescent(depth: nat)
      ensures ValidBehind(depth) == Yes <==> Meaning()
    {
      if depth != 0 { ValidDescent(depth - 1); }
    }

    lemma ValidOpen()
      ensures Valid() <==> Meaning()
    {
      ValidDescent(2 + slots.Length);
    }

    method Push(answer: Answer, start: bool)
      requires Valid() && count < SLOTS && Sayable(answer)
      modifies this`count, this`queue, slots
      ensures Valid() && queue == old(queue) + [Queued(answer, start)] && count == old(count) + 1
    {
      ValidOpen();
      AnswerFits(answer);
      slots[Place(head, count)] := Reply(answer, Length(answer), 0, start);
      count, queue := count + 1, queue + [Queued(answer, start)];
      ValidOpen();
    }

    method ClearStarts()
      requires Valid()
      modifies this`queue, slots
      ensures Valid() && queue == Quieted(old(queue))
    {
      ValidOpen();
      forall i | 0 <= i < SLOTS {
        slots[i] := slots[i].(start := false);
      }
      queue := Quieted(queue);
      ValidOpen();
    }

    method Reset()
      requires Valid()
      modifies this
      ensures Valid() && queue == []
    {
      ValidOpen();
      head, count, queue := 0, 0, [];
      ValidOpen();
    }

    /** What is left of the oldest reply. */
    method Peek() returns (first: Option<Reply>, rest: nat)
      requires Valid()
      ensures first == if queue == [] then None else Some(queue[0])
      ensures rest == if queue == [] then 0 else queue[0].Rest()
      ensures rest == 0 <==> queue == []
    {
      if count == 0 { return None, 0; }
      ValidOpen();
      assert queue[0] == slots[Place(head, 0)];
      return Some(slots[head]), slots[head].Rest();
    }

    /** Takes some of the oldest reply; done tells that none of it is left. */
    method Consume(length: nat) returns (ok: bool, done: bool, opens: bool)
      requires Valid()
      modifies this, slots
      ensures Valid()
      ensures ok <==> old(queue) != [] && 0 < length <= old(queue)[0].Rest()
      ensures !ok ==> !done && queue == old(queue)
      ensures ok ==> (done <==> length == old(queue)[0].Rest())
      ensures ok && !done ==> queue == old(queue)[0 := old(queue)[0].(offset := old(queue)[0].offset + length)]
      ensures done ==> queue == old(queue)[1..] && opens == old(queue)[0].start
    {
      if count == 0 { return false, false, false; }
      ValidOpen();
      assert queue[0] == slots[Place(head, 0)];
      var r := slots[head];
      if length == 0 || length > r.Rest() { return false, false, false; }
      if length < r.Rest() {
        Advance(length);
        return true, false, false;
      }
      Pop();
      return true, true, r.start;
    }

    method Advance(length: nat)
      requires Valid() && queue != [] && queue[0].offset + length < queue[0].length
      modifies this`queue, slots
      ensures Valid() && queue == old(queue)[0 := old(queue)[0].(offset := old(queue)[0].offset + length)]
    {
      ValidOpen();
      assert queue[0] == slots[Place(head, 0)];
      slots[head] := slots[head].(offset := slots[head].offset + length);
      queue := queue[0 := queue[0].(offset := queue[0].offset + length)];
      assert forall i :: 0 < i < count ==> Place(head, i) != head;
      ValidOpen();
    }

    method Pop()
      requires Valid() && queue != []
      modifies this
      ensures Valid() && queue == old(queue)[1..]
    {
      ValidOpen();
      ghost var before, first := queue, head;
      head, count, queue := Place(head, 1), count - 1, queue[1..];
      assert forall i :: 0 <= i < count ==> Place(head, i) == Place(first, i + 1);
      assert forall i :: 0 <= i < count ==> queue[i] == before[i + 1];
      ValidOpen();
    }
  }

  // ---- the line parser ----

  datatype Parser = Parser(text: string, bad: bool, cr: bool, active: bool, since: u32)

  const IDLE_PARSER := Parser("", false, false, false, 0)

  /** One byte into the parser: the new parser, and whether a line is complete. */
  function ParseByte(p: Parser, b: u8, now: u32): (Parser, bool) {
    var p := if p.active then p else p.(active := true, since := now);
    if p.cr && b == 10 then (p.(bad := p.bad || |p.text| > CONTROL_CAPACITY - 2), true)
    else
      var p := p.(bad := p.bad || p.cr, cr := b == 13);
      if b == 13 then (p, false)
      else
        var p := p.(bad := p.bad || b < 32 || b > 126);
        if |p.text| < CONTROL_CAPACITY - 1 then (p.(text := p.text + [b as char]), false)
        else (p.(bad := true), false)
  }

  function Said(p: Parser): Option<Command> { if p.bad then None else Some(CommandOf(p.text)) }

  /** What the lines that a span completes say, in order; a malformed line says nothing. */
  function Spoken(p: Parser, bytes: seq<u8>, now: u32): seq<Option<Command>>
    decreases |bytes|
  {
    if bytes == [] then []
    else
      var (q, complete) := ParseByte(p, bytes[0], now);
      if complete then [Said(q)] + Spoken(IDLE_PARSER, bytes[1..], now)
      else Spoken(q, bytes[1..], now)
  }

  /** The next byte. */
  lemma SpokenAt(p: Parser, bytes: seq<u8>, i: nat, now: u32)
    requires i < |bytes|
    ensures var (q, complete) := ParseByte(p, bytes[i], now);
      Spoken(p, bytes[i..], now) ==
      if complete then [Said(q)] + Spoken(IDLE_PARSER, bytes[i + 1..], now) else Spoken(q, bytes[i + 1..], now)
  {
    assert bytes[i..][0] == bytes[i] && bytes[i..][1..] == bytes[i + 1..];
  }

  /** The parser behind a span, with nothing left of the lines that are complete. */
  function Behind(p: Parser, bytes: seq<u8>, now: u32): Parser
    decreases |bytes|
  {
    if bytes == [] then p
    else
      var (q, complete) := ParseByte(p, bytes[0], now);
      Behind(if complete then IDLE_PARSER else q, bytes[1..], now)
  }

  /** What is said does not depend on how the bytes are split into spans. */
  lemma {:induction false} SpokenSplit(p: Parser, s: seq<u8>, t: seq<u8>, now: u32)
    ensures Spoken(p, s + t, now) == Spoken(p, s, now) + Spoken(Behind(p, s, now), t, now)
    decreases |s|
  {
    if s == [] {
      assert s + t == t;
    } else {
      assert (s + t)[1..] == s[1..] + t;
      var (q, complete) := ParseByte(p, s[0], now);
      SpokenSplit(if complete then IDLE_PARSER else q, s[1..], t, now);
    }
  }

  predicate Printable(s: seq<u8>) { forall i :: 0 <= i < |s| ==> 32 <= s[i] <= 126 }

  /** Before a carriage return the bytes are kept as they come, as far as there is room, and nothing is said yet; one that
      is not printable, or for which there is no room, spoils the line. */
  lemma {:induction false} KeptUntilReturn(p: Parser, s: seq<u8>, now: u32)
    requires 13 !in s && !p.cr && |p.text| <= CONTROL_CAPACITY - 1
    ensures var q := Behind(p, s, now);
      && !q.cr && q.bad == (p.bad || !Printable(s) || |p.text| + |s| > CONTROL_CAPACITY - 1)
      && (|p.text| + |s| <= CONTROL_CAPACITY - 1 ==> q.text == p.text + Chars(s))
    ensures Spoken(p, s, now) == []
    decreases |s|
  {
    if s != [] {
      assert s[0] in s && forall b :: b in s[1..] ==> b in s;
      KeptUntilReturn(ParseByte(p, s[0], now).0, s[1..], now);
      assert Chars(s) == [s[0] as char] + Chars(s[1..]);
      assert Printable(s) <==> 32 <= s[0] <= 126 && Printable(s[1..]) by {
        assert forall i :: 0 < i < |s| ==> s[i] == s[1..][i - 1];
        assert forall i :: 0 <= i < |s[1..]| ==> s[1..][i] == s[i + 1];
      }
    }
  }

  /** A line says what was sent exactly if it is printable and has at most 254 characters; any other says nothing. */
  lemma LineAccepted(s: seq<u8>, now: u32)
    requires 13 !in s
    ensures Spoken(IDLE_PARSER, s + [13, 10], now) ==
            [if Printable(s) && |s| <= CONTROL_CAPACITY - 2 then Some(CommandOf(Chars(s))) else None]
  {
    var p := Behind(IDLE_PARSER, s, now);
    KeptUntilReturn(IDLE_PARSER, s, now);
    SpokenSplit(IDLE_PARSER, s, [13, 10], now);
    var q := ParseByte(p, 13, now).0;
    assert [13, 10][1..] == [10] && [10][1..] == [];
    var r := ParseByte(q, 10, now).0;
    if |s| <= CONTROL_CAPACITY - 1 { assert r.text == Chars(s); }
    assert r.bad == !(Printable(s) && |s| <= CONTROL_CAPACITY - 2);
    assert Spoken(p, [13, 10], now) == Spoken(q, [10], now) == [Said(r)];
  }

  // ---- commands ----

  function SpaceAt(line: string): (n: nat)
    ensures n <= |line| && (n < |line| ==> line[n] == ' ') && forall i :: 0 <= i < n ==> line[i] != ' '
  {
    if line == "" || line[0] == ' ' then 0 else 1 + SpaceAt(line[1..])
  }

  function Upper(c: char): char { if 'a' <= c <= 'z' then c - 'a' + 'A' else c }

  datatype Verb =
    | QUIT | ABOR | NOOP | SYST | FEAT | USER | PASS | PWD | CWD | CDUP | TYPE | EPSV | PASV | SIZE | STOR | RETR | OTHER

  /** The first word of the line, in upper case. */
  function Word(line: string): string {
    seq(SpaceAt(line), i requires 0 <= i < SpaceAt(line) => Upper(line[i]))
  }

  /** The verb, behind a descent that the verifier does not follow. */
  function VerbOf(line: string): Verb { VerbBehind(Word(line), 2 + |line|) }

  function VerbBehind(w: string, depth: nat): Verb {
    if depth != 0 then VerbBehind(w, depth - 1)
    else if w == "QUIT" then QUIT else if w == "ABOR" then ABOR else if w == "NOOP" then NOOP else if w == "SYST" then SYST
    else if w == "FEAT" then FEAT else if w == "USER" then USER else if w == "PASS" then PASS
    else if w == "PWD" || w == "XPWD" then PWD else if w == "CWD" then CWD else if w == "CDUP" then CDUP
    else if w == "TYPE" then TYPE else if w == "EPSV" then EPSV else if w == "PASV" then PASV
    else if w == "SIZE" then SIZE else if w == "STOR" then STOR else if w == "RETR" then RETR else OTHER
  }

  function Argument(line: string): string {
    if SpaceAt(line) < |line| then line[SpaceAt(line) + 1..] else ""
  }

  datatype Command = Command(verb: Verb, arg: string)

  function CommandOf(line: string): Command { Command(VerbOf(line), Argument(line)) }
}
