/** The DHCP option field (RFC 2132 section 2): its reading as a list of options, the parser and the builder. */
module DhcpOptions {
  import opened ByteStrings

  const SUBNET_MASK: bv8 := 1
  const ROUTER: bv8 := 3
  const DNS_SERVER: bv8 := 6
  const HOSTNAME: bv8 := 12
  const REQUESTED_IP: bv8 := 50
  const LEASE_TIME: bv8 := 51
  const MESSAGE_TYPE: bv8 := 53
  const SERVER_ID: bv8 := 54
  const PARAM_REQUEST: bv8 := 55
  const CLIENT_ID: bv8 := 61
  const PAD: bv8 := 0
  const END: bv8 := 255

  const DISCOVER: bv8 := 1
  const OFFER: bv8 := 2
  const REQUEST: bv8 := 3
  const ACK: bv8 := 5
  const NAK: bv8 := 6

  const MAX_ITERATIONS: nat := 512
  const MAX_OPTIONS: nat := 512
  const ZERO_IP: Bytes := [0, 0, 0, 0]

  // ---------------------------------------------------------------- the option stream

  datatype Option = Option(tag: bv8, value: Bytes)

  /** The options up to the end mark, and whether the stream broke off inside an option. */
  datatype Stream = Stream(options: seq<Option>, malformed: bool)

  function Decode(data: Bytes): Stream
    decreases |data|
  {
    if data == [] || data[0] == END then Stream([], false)
    else if data[0] == PAD then Decode(data[1..])
    else if Broken(data) then Stream([], true)
    else Prepend(Head(data), Decode(Tail(data)))
  }

  function Size(b: bv8): nat {
    b as int
  }

  /** The first option has no length byte, or less data than it announces. */
  predicate Broken(data: Bytes) {
    |data| < 2 || Size(data[1]) > |data| - 2
  }

  function Head(data: Bytes): Option
    requires !Broken(data)
  {
    Option(data[0], data[2..2 + Size(data[1])])
  }

  function Tail(data: Bytes): (r: Bytes)
    requires !Broken(data)
    ensures |r| < |data|
  {
    data[2 + Size(data[1])..]
  }

  function Prepend(o: Option, s: Stream): Stream {
    Stream([o] + s.options, s.malformed)
  }

  /** The same with a bound on the number of pads and options looked at. */
  function DecodeCapped(data: Bytes, left: nat): Stream
    decreases |data|
  {
    if data == [] then Stream([], false)
    else if left == 0 then Stream([], true)
    else if data[0] == END then Stream([], false)
    else if data[0] == PAD then DecodeCapped(data[1..], left - 1)
    else if Broken(data) then Stream([], true)
    else Prepend(Head(data), DecodeCapped(Tail(data), left - 1))
  }

  /** The cap never fires on a stream with no more bytes than the cap. */
  lemma {:induction false} CapNeverFires(data: Bytes, left: nat)
    requires |data| <= left
    ensures DecodeCapped(data, left) == Decode(data)
    decreases |data|
  {
    hide Broken, Head, Tail;
    if data == [] || data[0] == END {
    } else if data[0] == PAD {
      CapNeverFires(data[1..], left - 1);
    } else if !Broken(data) {
      CapNeverFires(Tail(data), left - 1);
    }
  }

  // ---------------------------------------------------------------- the last occurrence wins

  datatype Options = Options(
    msgType: bv8, serverId: Bytes, mask: Bytes, maskPresent: bool, router: Bytes, dns: Bytes, lease: nat)

  /** The first `size` bytes of the last option with this tag that is long enough (exactly as long, if `exact`). */
  function LastValue(options: seq<Option>, tag: bv8, size: nat, exact: bool, otherwise: Bytes): (r: Bytes)
    requires |otherwise| == size
    ensures |r| == size
  {
    if options == [] then otherwise
    else
      var n := |options| - 1;
      if Fits(options[n], tag, size, exact) then options[n].value[..size]
      else LastValue(options[..n], tag, size, exact, otherwise)
  }

  predicate Fits(o: Option, tag: bv8, size: nat, exact: bool) {
    o.tag == tag && |o.value| >= size && (exact ==> |o.value| == size)
  }

  predicate Mentions(options: seq<Option>, tag: bv8) {
    exists i :: 0 <= i < |options| && options[i].tag == tag
  }

  function Read(options: seq<Option>): Options {
    Options(
      LastValue(options, MESSAGE_TYPE, 1, false, [0])[0],
      LastValue(options, SERVER_ID, 4, true, ZERO_IP),
      LastValue(options, SUBNET_MASK, 4, true, ZERO_IP),
      Mentions(options, SUBNET_MASK),
      LastValue(options, ROUTER, 4, false, ZERO_IP),
      LastValue(options, DNS_SERVER, 4, false, ZERO_IP),
      Value(LastValue(options, LEASE_TIME, 4, true, ZERO_IP)))
  }

  /** Option i is the last one that fits. */
  predicate LastFit(options: seq<Option>, tag: bv8, size: nat, exact: bool, i: nat)
    requires i < |options|
  {
    Fits(options[i], tag, size, exact) && forall j :: i < j < |options| ==> !Fits(options[j], tag, size, exact)
  }

  /** The winner is an occurrence that no later one overrides. */
  lemma {:induction false} LastWins(options: seq<Option>, tag: bv8, size: nat, exact: bool, otherwise: Bytes, i: nat)
    requires |otherwise| == size && i < |options| && LastFit(options, tag, size, exact, i)
    ensures LastValue(options, tag, size, exact, otherwise) == options[i].value[..size]
    decreases |options|
  {
    var n := |options| - 1;
    if i < n {
      LastWins(options[..n], tag, size, exact, otherwise, i);
    }
  }

  /** A value other than the default comes from an option. */
  lemma {:induction false} FoundAt(options: seq<Option>, tag: bv8, size: nat, exact: bool, otherwise: Bytes)
      returns (i: nat)
    requires |otherwise| == size && LastValue(options, tag, size, exact, otherwise) != otherwise
    ensures i < |options| && LastFit(options, tag, size, exact, i)
    ensures options[i].value[..size] == LastValue(options, tag, size, exact, otherwise)
    decreases |options|
  {
    var n := |options| - 1;
    if Fits(options[n], tag, size, exact) {
      i := n;
    } else {
      i := FoundAt(options[..n], tag, size, exact, otherwise);
    }
  }

  // ---------------------------------------------------------------- the parser

  /** What the parser's switch does with one option. */
  function Apply(f: Options, o: Option): Options {
    if o.tag == MESSAGE_TYPE then (if |o.value| >= 1 then f.(msgType := o.value[0]) else f)
    else if o.tag == SERVER_ID then (if |o.value| == 4 then f.(serverId := o.value) else f)
    else if o.tag == SUBNET_MASK then
      (if |o.value| == 4 then f.(maskPresent := true, mask := o.value) else f.(maskPresent := true))
    else if o.tag == ROUTER then (if |o.value| >= 4 then f.(router := o.value[..4]) else f)
    else if o.tag == DNS_SERVER then (if |o.value| >= 4 then f.(dns := o.value[..4]) else f)
    else if o.tag == LEASE_TIME then (if |o.value| == 4 then f.(lease := Value(o.value)) else f)
    else f
  }

  lemma LastStep(options: seq<Option>, o: Option, tag: bv8, size: nat, exact: bool, otherwise: Bytes)
    requires |otherwise| == size
    ensures LastValue(options + [o], tag, size, exact, otherwise) ==
            if Fits(o, tag, size, exact) then o.value[..size] else LastValue(options, tag, size, exact, otherwise)
  {
    assert (options + [o])[..|options|] == options;
  }

  lemma MentionsStep(options: seq<Option>, o: Option, tag: bv8)
    ensures Mentions(options + [o], tag) <==> Mentions(options, tag) || o.tag == tag
  {
    var all := options + [o];
    if Mentions(options, tag) {
      var i :| 0 <= i < |options| && options[i].tag == tag;
      assert all[i].tag == tag;
    }
    if o.tag == tag {
      assert all[|options|].tag == tag;
    }
    if Mentions(all, tag) {
      var i :| 0 <= i < |all| && all[i].tag == tag;
      assert i < |options| ==> options[i].tag == tag;
    }
  }

  /** Overwriting field by field is the same as taking the last occurrence. */
  lemma ReadStep(options: seq<Option>, o: Option)
    ensures Read(options + [o]) == Apply(Read(options), o)
  {
    hide LastValue, Mentions, Value;
    LastStep(options, o, MESSAGE_TYPE, 1, false, [0]);
    LastStep(options, o, SERVER_ID, 4, true, ZERO_IP);
    LastStep(options, o, SUBNET_MASK, 4, true, ZERO_IP);
    LastStep(options, o, ROUTER, 4, false, ZERO_IP);
    LastStep(options, o, DNS_SERVER, 4, false, ZERO_IP);
    LastStep(options, o, LEASE_TIME, 4, true, ZERO_IP);
    MentionsStep(options, o, SUBNET_MASK);
    assert |o.value| == 4 ==> o.value[..4] == o.value;
  }

  /** `parse_dhcp_options`; malformed says that the drop counter went up. */
  method Parse(options: Bytes) returns (f: Options, malformed: bool)
    ensures var s := DecodeCapped(options, MAX_ITERATIONS); f == Read(s.options) && malformed == s.malformed
    ensures |options| <= MAX_ITERATIONS ==> f == Read(Decode(options).options) && malformed == Decode(options).malformed
  {
    hide DecodeCapped, Decode, Read, Broken, Head, Tail, Size;
    if |options| <= MAX_ITERATIONS {
      CapNeverFires(options, MAX_ITERATIONS);
    }
    f, malformed := Options(0, ZERO_IP, ZERO_IP, false, ZERO_IP, ZERO_IP, 0), false;
    ghost var seen: seq<Option> := [];
    ReadNothing();
    var i, iterations := 0, 0;
    assert options[0..] == options;
    StreamStart(options);
    while i < |options|
      invariant 0 <= i <= |options| && iterations <= MAX_ITERATIONS && !malformed
      invariant f == Read(seen)
      invariant DecodeCapped(options, MAX_ITERATIONS)
             == Append(seen, DecodeCapped(options[i..], MAX_ITERATIONS - iterations))
      decreases |options| - i
    {
      ghost var rest, left := options[i..], MAX_ITERATIONS - iterations;
      BrokenAt(options, i);
      assert seen + [] == seen;
      StreamStep(rest, left, seen);
      iterations := iterations + 1;
      if iterations > MAX_ITERATIONS {
        malformed := true;
        return;
      }
      var option := options[i];
      i := i + 1;
      if option == END {
        return;
      }
      if option == PAD {
        assert rest[1..] == options[i..];
        continue;
      }
      if i >= |options| {
        malformed := true;
        return;
      }
      var len := Size(options[i]);
      i := i + 1;
      if len > |options| - i {
        malformed := true;
        return;
      }
      HeadAndTail(options, i - 2);
      ReadStep(seen, Head(rest));
      f := Switch(f, option, options, i, len);
      seen := seen + [Head(rest)];
      i := i + len;
    }
    assert options[i..] == [] && seen + [] == seen;
    StreamEnd(MAX_ITERATIONS - iterations);
  }

  lemma BrokenAt(options: Bytes, i: nat)
    requires i < |options|
    ensures Broken(options[i..]) <==> i + 1 >= |options| || Size(options[i + 1]) > |options| - (i + 2)
  {
    hide Size;
  }

  lemma HeadAndTail(options: Bytes, i: nat)
    requires i < |options| && !Broken(options[i..])
    ensures i + 1 < |options| && i + 2 + Size(options[i + 1]) <= |options|
    ensures Head(options[i..]) == Option(options[i], options[i + 2..i + 2 + Size(options[i + 1])])
    ensures Tail(options[i..]) == options[i + 2 + Size(options[i + 1])..]
  {
    hide Size;
    var rest, n := options[i..], Size(options[i + 1]);
    assert rest[1] == options[i + 1];
    assert rest[2..2 + n] == options[i + 2..i + 2 + n];
  }

  /** The switch of the parser: it reads the option's data out of the buffer. */
  method Switch(g: Options, option: bv8, options: Bytes, i: nat, len: nat) returns (f: Options)
    requires i + len <= |options|
    ensures f == Apply(g, Option(option, options[i..i + len]))
  {
    hide Value;
    f := g;
    if option == MESSAGE_TYPE {
      if len >= 1 {
        f := f.(msgType := options[i]);
      }
    } else if option == SERVER_ID {
      if len == 4 {
        f := f.(serverId := options[i..i + 4]);
      }
    } else if option == SUBNET_MASK {
      f := f.(maskPresent := true);
      if len == 4 {
        f := f.(mask := options[i..i + 4]);
      }
    } else if option == ROUTER {
      if len >= 4 {
        assert options[i..i + len][..4] == options[i..i + 4];
        f := f.(router := options[i..i + 4]);
      }
    } else if option == DNS_SERVER {
      if len >= 4 {
        assert options[i..i + len][..4] == options[i..i + 4];
        f := f.(dns := options[i..i + 4]);
      }
    } else if option == LEASE_TIME {
      if len == 4 {
        f := f.(lease := Value(options[i..i + 4]));
      }
    }
  }

  function Append(options: seq<Option>, s: Stream): Stream {
    Stream(options + s.options, s.malformed)
  }

  lemma ReadNothing()
    ensures Read([]) == Options(0, ZERO_IP, ZERO_IP, false, ZERO_IP, ZERO_IP, 0)
  {
    var one: Bytes, two: Bytes, three: Bytes := [0], [0, 0], [0, 0, 0];
    assert Value(one) == 0;
    assert two[..1] == one && Value(two) == 0;
    assert three[..2] == two && Value(three) == 0;
    assert ZERO_IP[..3] == three && Value(ZERO_IP) == 0;
  }

  lemma StreamStart(options: Bytes)
    ensures Append([], DecodeCapped(options, MAX_ITERATIONS)) == DecodeCapped(options, MAX_ITERATIONS)
  {
  }

  lemma StreamEnd(left: nat)
    ensures DecodeCapped([], left) == Stream([], false)
  {
  }

  lemma StreamStep(rest: Bytes, left: nat, seen: seq<Option>)
    requires rest != []
    ensures left == 0 ==> DecodeCapped(rest, left) == Stream([], true)
    ensures left > 0 && rest[0] == END ==> DecodeCapped(rest, left) == Stream([], false)
    ensures left > 0 && rest[0] == PAD ==> DecodeCapped(rest, left) == DecodeCapped(rest[1..], left - 1)
    ensures left > 0 && rest[0] != END && rest[0] != PAD && Broken(rest) ==>
      DecodeCapped(rest, left) == Stream([], true)
    ensures left > 0 && rest[0] != END && rest[0] != PAD && !Broken(rest) ==>
      Append(seen, DecodeCapped(rest, left)) == Append(seen + [Head(rest)], DecodeCapped(Tail(rest), left - 1))
  {
    hide Broken, Head, Tail;
  }

  // ---------------------------------------------------------------- the builder

  /** An option as sent: tag, length, data. */
  function Encode(options: seq<Option>): Bytes {
    if options == [] then []
    else
      var n := |options| - 1;
      Encode(options[..n]) + [options[n].tag, Byte(|options[n].value|)] + options[n].value
  }

  predicate Sendable(o: Option) {
    o.tag != PAD && o.tag != END && |o.value| < 256
  }

  lemma DecodeOne(o: Option, rest: Bytes)
    requires Sendable(o)
    ensures Decode([o.tag, Byte(|o.value|)] + o.value + rest) == Prepend(o, Decode(rest))
  {
    hide Broken, Head, Tail, Byte, Size;
    SizeOfByte(|o.value|);
    SplitOne(o, Byte(|o.value|), rest, [o.tag, Byte(|o.value|)] + o.value + rest);
  }

  lemma SizeOfByte(n: nat)
    requires n < 256
    ensures Size(Byte(n)) == n
  {
    hide Byte;
  }

  lemma SplitOne(o: Option, size: bv8, rest: Bytes, data: Bytes)
    requires Size(size) == |o.value| && data == [o.tag, size] + o.value + rest
    ensures !Broken(data) && Head(data) == o && Tail(data) == rest
  {
    hide Size;
    var n := |o.value|;
    assert data[2..2 + n] == o.value && data[2 + n..] == rest;
  }

  /** Reading what was encoded gives the options back, whatever follows the end mark. */
  lemma {:induction false} RoundTrip(options: seq<Option>, after: seq<Option>, rest: Bytes)
    requires forall i :: 0 <= i < |options| ==> Sendable(options[i])
    requires Decode(rest) == Stream(after, false)
    ensures Decode(Encode(options) + rest) == Stream(options + after, false)
    decreases |options|
  {
    hide Decode;
    if options == [] {
      assert Encode(options) + rest == rest && options + after == after;
    } else {
      var n := |options| - 1;
      var o := options[n];
      DecodeOne(o, rest);
      var more := [o.tag, Byte(|o.value|)] + o.value + rest;
      RoundTrip(options[..n], [o] + after, more);
      assert Encode(options) + rest == Encode(options[..n]) + more;
      assert options + after == options[..n] + ([o] + after);
    }
  }

  lemma JustEnd()
    ensures Decode([END]) == Stream([], false)
  {
  }

  datatype Maybe = Null | Ip(ip: Bytes)

  const HOST_TEXT: Bytes := [0x54, 0x69, 0x6e, 0x79, 0x4f, 0x53]

  /** Message type and client identifier, which every message carries. */
  function Opening(msgType: bv8, mac: Bytes): seq<Option> {
    [Option(MESSAGE_TYPE, [msgType])] + [Option(CLIENT_ID, [1] + mac)]
  }

  /** The requested address and the server, which only a REQUEST carries. */
  function Asked(options: seq<Option>, msgType: bv8, requested: Maybe, server: Maybe): seq<Option> {
    var more := if msgType == REQUEST && requested.Ip? then options + [Option(REQUESTED_IP, requested.ip)] else options;
    if msgType == REQUEST && server.Ip? then more + [Option(SERVER_ID, server.ip)] else more
  }

  const WANTED: Bytes := [SUBNET_MASK, ROUTER, DNS_SERVER, LEASE_TIME]

  /** What a message carries. */
  function Carried(msgType: bv8, mac: Bytes, requested: Maybe, server: Maybe): seq<Option> {
    Asked(Opening(msgType, mac), msgType, requested, server) + [Option(PARAM_REQUEST, WANTED)] +
        [Option(HOSTNAME, HOST_TEXT)]
  }

  predicate Address(m: Maybe) {
    m.Null? || |m.ip| == 4
  }

  /** One option at the end of what is already there. */
  method Put(buf: array<bv8>, at: nat, tag: bv8, value: Bytes) returns (end: nat)
    requires at + 2 + |value| <= buf.Length && |value| < 256
    modifies buf
    ensures end == at + 2 + |value| && buf[..end] == old(buf[..at]) + [tag, Byte(|value|)] + value
  {
    hide Byte;
    ghost var front := buf[..at];
    var size := Byte(|value|);
    buf[at] := tag;
    buf[at + 1] := size;
    end := at + 2 + |value|;
    forall i | at + 2 <= i < end {
      buf[i] := value[i - (at + 2)];
    }
    Pieces(buf[..end], front, tag, size, value);
  }

  lemma Pieces(whole: Bytes, front: Bytes, tag: bv8, size: bv8, value: Bytes)
    requires |whole| == |front| + 2 + |value|
    requires forall i :: 0 <= i < |front| ==> whole[i] == front[i]
    requires whole[|front|] == tag && whole[|front| + 1] == size
    requires forall i :: |front| + 2 <= i < |whole| ==> whole[i] == value[i - (|front| + 2)]
    ensures whole == front + [tag, size] + value
  {
  }

  /** Puts the option there and leaves an encoded list behind, unless there is no room. */
  method Extend(buf: array<bv8>, at: nat, ghost options: seq<Option>, o: Option) returns (end: nat, ok: bool)
    requires at <= MAX_OPTIONS <= buf.Length && |o.value| < 256 && buf[..at] == Encode(options)
    modifies buf
    ensures ok == (at + 2 + |o.value| <= MAX_OPTIONS)
    ensures ok ==> end == at + 2 + |o.value| && buf[..end] == Encode(options + [o])
  {
    hide Byte;
    if at + 2 + |o.value| > MAX_OPTIONS {
      return at, false;
    }
    end := Put(buf, at, o.tag, o.value);
    ok := true;
    assert (options + [o])[..|options|] == options;
  }

  /** The option part of `send_dhcp_message`; there is always room. */
  method Build(buf: array<bv8>, msgType: bv8, mac: Bytes, requested: Maybe, server: Maybe) returns (n: nat, ok: bool)
    requires MAX_OPTIONS <= buf.Length && |mac| == 6 && Address(requested) && Address(server)
    modifies buf
    ensures ok && n <= 39 && buf[..n] == Encode(Carried(msgType, mac, requested, server)) + [END]
  {
    hide Encode;
    assert buf[..0] == Encode([]) by { EncodeNothing(); }
    ghost var done: seq<Option> := [];
    var o := Option(MESSAGE_TYPE, [msgType]);
    n, ok := Extend(buf, 0, done, o);
    done := done + [o];
    o := Option(CLIENT_ID, [1] + mac);
    n, ok := Extend(buf, n, done, o);
    done := done + [o];
    assert done == Opening(msgType, mac);
    if msgType == REQUEST && requested.Ip? {
      o := Option(REQUESTED_IP, requested.ip);
      n, ok := Extend(buf, n, done, o);
      done := done + [o];
    }
    if msgType == REQUEST && server.Ip? {
      o := Option(SERVER_ID, server.ip);
      n, ok := Extend(buf, n, done, o);
      done := done + [o];
    }
    assert done == Asked(Opening(msgType, mac), msgType, requested, server);
    o := Option(PARAM_REQUEST, WANTED);
    n, ok := Extend(buf, n, done, o);
    done := done + [o];
    o := Option(HOSTNAME, HOST_TEXT);
    n, ok := Extend(buf, n, done, o);
    done := done + [o];
    buf[n] := END;
    assert buf[..n + 1] == buf[..n] + [END];
    n := n + 1;
  }

  lemma EncodeNothing()
    ensures Encode([]) == []
  {
  }

  lemma AllSendable(msgType: bv8, mac: Bytes, requested: Maybe, server: Maybe)
    requires |mac| == 6 && Address(requested) && Address(server)
    ensures forall i :: 0 <= i < |Carried(msgType, mac, requested, server)| ==>
      Sendable(Carried(msgType, mac, requested, server)[i])
  {
  }

  /** What the server identifier of a message should be. */
  function Named(msgType: bv8, server: Maybe): Bytes {
    if msgType == REQUEST && server.Ip? then server.ip else ZERO_IP
  }

  lemma ReadCarried(msgType: bv8, mac: Bytes, requested: Maybe, server: Maybe)
    requires |mac| == 6 && Address(requested) && Address(server)
    ensures Read(Carried(msgType, mac, requested, server)) ==
            Options(msgType, Named(msgType, server), ZERO_IP, false, ZERO_IP, ZERO_IP, 0)
  {
    hide Read;
    ReadNothing();
    var first := [Option(MESSAGE_TYPE, [msgType])];
    assert first == [] + first;
    ReadStep([], first[0]);
    ReadStep(first, Option(CLIENT_ID, [1] + mac));
    var open := Opening(msgType, mac);
    ReadAsked(open, msgType, requested, server);
    var asked := Asked(open, msgType, requested, server);
    ReadStep(asked, Option(PARAM_REQUEST, WANTED));
    ReadStep(asked + [Option(PARAM_REQUEST, WANTED)], Option(HOSTNAME, HOST_TEXT));
  }

  lemma ReadAsked(options: seq<Option>, msgType: bv8, requested: Maybe, server: Maybe)
    requires Address(requested) && Address(server) && Read(options).serverId == ZERO_IP
    ensures Read(Asked(options, msgType, requested, server)) == Read(options).(serverId := Named(msgType, server))
  {
    hide Read;
    var more := options;
    if msgType == REQUEST && requested.Ip? {
      ReadStep(options, Option(REQUESTED_IP, requested.ip));
      more := options + [Option(REQUESTED_IP, requested.ip)];
    }
    if msgType == REQUEST && server.Ip? {
      ReadStep(more, Option(SERVER_ID, server.ip));
    }
  }

  /** Parsing what the builder wrote gives its message type and server back, with anything behind it. */
  lemma BuiltReadsBack(msgType: bv8, mac: Bytes, requested: Maybe, server: Maybe, behind: Bytes)
    requires |mac| == 6 && Address(requested) && Address(server)
    ensures var s := Decode(Encode(Carried(msgType, mac, requested, server)) + ([END] + behind));
            !s.malformed
            && Read(s.options) == Options(msgType, Named(msgType, server), ZERO_IP, false, ZERO_IP, ZERO_IP, 0)
  {
    hide Read, Encode, Carried;
    var options := Carried(msgType, mac, requested, server);
    AllSendable(msgType, mac, requested, server);
    RoundTrip(options, [], [END] + behind);
    assert options + [] == options;
    ReadCarried(msgType, mac, requested, server);
  }
}
