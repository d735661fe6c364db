/** The Redis protocol text of the SUMO bridge: the frame `publish_redis` writes on its
  raw socket, and the line-based reader of `listen_dashboard_commands`.

  Between them stands the server, which reads PUBLISH commands octet by octet and pushes
  `message` frames whose lengths count octets.  The bridge handles UTF-8 text, so its two
  ends are modelled on characters; octets are written as the characters of their codes.
 */
module RedisFraming {
  import opened Wrappers

  // ----- Decimal numbers -----

  const DIGITS := "0123456789"

  function Decimal(n: nat): string {
    if n < 10 then [DIGITS[n]] else Decimal(n / 10) + [DIGITS[n % 10]]
  }

  predicate IsDigit(c: char) {
    '0' <= c <= '9'
  }

  // int() on a non-empty string of digits; anything else raises an error.
  function ParseDecimal(s: string): Option<nat> {
    if s == [] || !IsDigit(s[|s| - 1]) then None
    else if |s| == 1 then Some(s[0] as int - '0' as int)
    else
      var high :- ParseDecimal(s[..|s| - 1]);
      Some(high * 10 + (s[|s| - 1] as int - '0' as int))
  }

  lemma DigitValue(d: nat)
    requires d < 10
    ensures IsDigit(DIGITS[d]) && DIGITS[d] as int - '0' as int == d
  {
  }

  lemma {:induction false} DecimalRoundTrip(n: nat)
    ensures ParseDecimal(Decimal(n)) == Some(n)
    ensures forall i :: 0 <= i < |Decimal(n)| ==> IsDigit(Decimal(n)[i])
  {
    DigitValue(n % 10);
    if n >= 10 {
      DecimalRoundTrip(n / 10);
      assert Decimal(n)[..|Decimal(n)| - 1] == Decimal(n / 10);
    }
  }

  // ----- Writing -----

  // The number of octets of a character and of a string in UTF-8.
  function Utf8Width(c: char): nat {
    if c as int < 0x80 then 1 else if c as int < 0x800 then 2 else if c as int < 0x1_0000 then 3 else 4
  }

  function Utf8Length(s: string): nat {
    if s == [] then 0 else Utf8Width(s[0]) + Utf8Length(s[1..])
  }

  predicate Ascii(s: string) {
    forall i :: 0 <= i < |s| ==> s[i] as int < 0x80
  }

  lemma {:induction false} Utf8LengthIff(s: string)
    ensures Utf8Length(s) >= |s| && (Utf8Length(s) == |s| <==> Ascii(s))
  {
    if s != [] {
      Utf8LengthIff(s[1..]);
      assert Ascii(s) <==> s[0] as int < 0x80 && Ascii(s[1..]) by {
        assert s == [s[0]] + s[1..];
      }
    }
  }

  datatype Publication = Publication(channel: string, message: string)

  function Bulk(length: nat, payload: string, newline: string): string {
    "$" + Decimal(length) + newline + payload + newline
  }

  // What the bridge writes and what the server pushes to its subscribers.
  datatype Kind = Published | Pushed {

    function Name(): string {
      if Published? then "PUBLISH" else "message"
    }

    // The bridge measures the channel in characters, the server in octets.
    function ChannelLength(channel: string): nat {
      if Published? then |channel| else Utf8Length(channel)
    }
  }

  // The text of one frame; both sides measure the message in octets.
  function Frame(kind: Kind, p: Publication, newline: string): string {
    "*3" + newline + Bulk(7, kind.Name(), newline) + Bulk(kind.ChannelLength(p.channel), p.channel, newline)
    + Bulk(Utf8Length(p.message), p.message, newline)
  }

  function Stream(kind: Kind, ps: seq<Publication>, newline: string): string {
    if ps == [] then "" else Frame(kind, ps[0], newline) + Stream(kind, ps[1..], newline)
  }

  // ----- Reading -----

  // Text mode turns every CR LF, and every other CR, into LF.
  function Translate(s: string): string {
    if s == [] then []
    else if s[0] != '\r' then [s[0]] + Translate(s[1..])
    else ['\n'] + Translate(if |s| > 1 && s[1] == '\n' then s[2..] else s[1..])
  }

  // The index after the first LF, or the length.
  function LineEnd(s: string): (n: nat)
    ensures n <= |s| && (s != [] ==> n > 0)
  {
    if s == [] then 0 else if s[0] == '\n' then 1 else 1 + LineEnd(s[1..])
  }

  predicate IsSpace(c: char) {
    c == ' ' || c == '\t' || c == '\n' || c == '\r' || c as int == 11 || c as int == 12
  }

  function Strip(s: string): string {
    if s == [] then []
    else if IsSpace(s[0]) then Strip(s[1..])
    else if IsSpace(s[|s| - 1]) then Strip(s[..|s| - 1])
    else s
  }

  datatype Heard = Heard(bulks: seq<string>, error: bool)

  function Take(s: string, n: nat): string {
    if n <= |s| then s[..n] else s
  }

  function Drop(s: string, n: nat): string {
    if n <= |s| then s[n..] else []
  }

  // The bulk strings read from the translated stream up to its end, or up to a length
  // that is no number.
  function Listen(s: string): Heard
    decreases |s|
  {
    if s == [] then Heard([], false)
    else
      var line, rest := s[..LineEnd(s)], s[LineEnd(s)..];
      if line[0] != '$' then Listen(rest)
      else match ParseDecimal(Strip(line[1..]))
        case None => Heard([], true)
        case Some(n) =>
          var after := Drop(rest, n);
          var tail := Listen(after[LineEnd(after)..]);
          Heard([Take(rest, n)] + tail.bulks, tail.error)
  }

  // The reading loop.
  method ListenDashboardCommands(s: string) returns (r: Heard)
    ensures r == Listen(s)
  {
    var stream := s;
    var bulks := [];
    while stream != []
      invariant Listen(s) == Heard(bulks + Listen(stream).bulks, Listen(stream).error)
      decreases |stream|
    {
      var n := LineEnd(stream);
      var line := stream[..n];
      stream := stream[n..];
      if line[0] == '$' {
        var length := ParseDecimal(Strip(line[1..]));
        if length.None? {
          return Heard(bulks, true);
        }
        var msg := Take(stream, length.value);
        stream := Drop(stream, length.value);
        stream := stream[LineEnd(stream)..];
        bulks := bulks + [msg];
      }
    }
    r := Heard(bulks, false);
  }

  // ----- What is read is what was written -----

  function Bulks(kind: Kind, ps: seq<Publication>): seq<string> {
    if ps == [] then [] else [kind.Name(), ps[0].channel, ps[0].message] + Bulks(kind, ps[1..])
  }

  predicate NoCr(s: string) {
    forall i :: 0 <= i < |s| ==> s[i] != '\r'
  }

  lemma {:induction false} TranslateNoCr(s: string)
    ensures NoCr(Translate(s))
  {
    if s != [] {
      TranslateNoCr(s[1..]);
      if |s| > 1 {
        TranslateNoCr(s[2..]);
      }
    }
  }

  lemma {:induction false} TranslatePlain(s: string, t: string)
    requires NoCr(s)
    ensures Translate(s + t) == s + Translate(t)
  {
    if s == [] {
      assert s + t == t;
    } else {
      TranslatePlain(s[1..], t);
      assert (s + t)[1..] == s[1..] + t;
      assert s == [s[0]] + s[1..];
    }
  }

  lemma TranslateCrLf(t: string)
    ensures Translate("\r\n" + t) == "\n" + Translate(t)
  {
  }

  predicate Plain(p: Publication) {
    NoCr(p.channel) && NoCr(p.message)
  }

  lemma DecimalNoCr(n: nat)
    ensures NoCr("$" + Decimal(n))
  {
    DecimalRoundTrip(n);
    var s := "$" + Decimal(n);
    assert forall i :: 1 <= i < |s| ==> s[i] == Decimal(n)[i - 1];
  }

  lemma BulkParts(length: nat, payload: string, newline: string, t: string)
    ensures Bulk(length, payload, newline) + t == ("$" + Decimal(length)) + (newline + (payload + (newline + t)))
  {
  }

  lemma TranslateBulk(length: nat, payload: string, t: string)
    requires NoCr(payload)
    ensures Translate(Bulk(length, payload, "\r\n") + t) == Bulk(length, payload, "\n") + Translate(t)
  {
    var after := payload + ("\r\n" + t);
    BulkParts(length, payload, "\r\n", t);
    DecimalNoCr(length);
    TranslatePlain("$" + Decimal(length), "\r\n" + after);
    TranslateCrLf(after);
    TranslatePlain(payload, "\r\n" + t);
    TranslateCrLf(t);
    BulkParts(length, payload, "\n", Translate(t));
  }

  lemma FrameParts(kind: Kind, p: Publication, newline: string, t: string)
    ensures Frame(kind, p, newline) + t ==
              "*3" + (newline + (Bulk(7, kind.Name(), newline) + (Bulk(kind.ChannelLength(p.channel), p.channel, newline)
              + (Bulk(Utf8Length(p.message), p.message, newline) + t))))
  {
  }

  lemma TranslateFrame(kind: Kind, p: Publication, t: string)
    requires Plain(p)
    ensures Translate(Frame(kind, p, "\r\n") + t) == Frame(kind, p, "\n") + Translate(t)
  {
    var length := kind.ChannelLength(p.channel);
    var t3 := Bulk(Utf8Length(p.message), p.message, "\r\n") + t;
    var t2 := Bulk(length, p.channel, "\r\n") + t3;
    var t1 := Bulk(7, kind.Name(), "\r\n") + t2;
    FrameParts(kind, p, "\r\n", t);
    TranslatePlain("*3", "\r\n" + t1);
    TranslateCrLf(t1);
    TranslateBulk(7, kind.Name(), t2);
    TranslateBulk(length, p.channel, t3);
    TranslateBulk(Utf8Length(p.message), p.message, t);
    FrameParts(kind, p, "\n", Translate(t));
  }

  lemma {:induction false} TranslateStream(kind: Kind, ps: seq<Publication>)
    requires forall p :: p in ps ==> Plain(p)
    ensures Translate(Stream(kind, ps, "\r\n")) == Stream(kind, ps, "\n")
  {
    if ps != [] {
      TranslateFrame(kind, ps[0], Stream(kind, ps[1..], "\r\n"));
      TranslateStream(kind, ps[1..]);
    }
  }

  // ----- Reading one bulk string -----

  lemma {:induction false} LineEndOf(line: string, rest: string)
    requires forall i :: 0 <= i < |line| ==> line[i] != '\n'
    ensures LineEnd(line + ("\n" + rest)) == |line| + 1
  {
    if line == [] {
      assert line + ("\n" + rest) == "\n" + rest;
    } else {
      LineEndOf(line[1..], rest);
      assert (line + ("\n" + rest))[1..] == line[1..] + ("\n" + rest);
    }
  }

  lemma StripDecimal(n: nat)
    ensures Strip(Decimal(n) + "\n") == Decimal(n)
  {
    DecimalRoundTrip(n);
    var d := Decimal(n);
    assert (d + "\n")[..|d + "\n"| - 1] == d;
    assert IsDigit(d[0]) && IsDigit(d[|d| - 1]);
    assert (d + "\n")[0] == d[0];
  }

  lemma LengthEnd(length: nat, text: string, s: string)
    requires s == "$" + Decimal(length) + "\n" + text
    ensures LineEnd(s) == |Decimal(length)| + 2
  {
    var head := "$" + Decimal(length);
    assert s == head + ("\n" + text);
    DecimalRoundTrip(length);
    forall i | 0 <= i < |head| ensures head[i] != '\n' {
      if i > 0 {
        assert head[i] == Decimal(length)[i - 1];
      }
    }
    LineEndOf(head, text);
  }

  lemma LengthParts(digits: string, text: string, s: string, n: nat)
    requires s == "$" + digits + "\n" + text && n == |digits| + 2
    ensures s[..n] == "$" + digits + "\n" && s[n..] == text && s[..n][1..] == digits + "\n"
  {
  }

  lemma LengthLine(length: nat, text: string, s: string)
    requires s == "$" + Decimal(length) + "\n" + text
    ensures LineEnd(s) == |Decimal(length)| + 2
    ensures s[..LineEnd(s)] == "$" + Decimal(length) + "\n" && s[LineEnd(s)..] == text
    ensures ParseDecimal(Strip(s[..LineEnd(s)][1..])) == Some(length)
  {
    LengthEnd(length, text, s);
    LengthParts(Decimal(length), text, s, LineEnd(s));
    StripDecimal(length);
    DecimalRoundTrip(length);
  }

  // The listener reads the announced number of characters, whatever they are, and skips
  // to the end of the line.
  lemma ListenBulk(length: nat, payload: string, rest: string)
    ensures var text := payload + ("\n" + rest);
            var after := Drop(text, length);
            var tail := Listen(after[LineEnd(after)..]);
            Listen(Bulk(length, payload, "\n") + rest) == Heard([Take(text, length)] + tail.bulks, tail.error)
  {
    var text := payload + ("\n" + rest);
    var s := Bulk(length, payload, "\n") + rest;
    assert s == "$" + Decimal(length) + "\n" + text;
    LengthLine(length, text, s);
    assert s[0] == '$';
  }

  // A bulk string whose length is right is read as it was written.
  lemma ListenRightBulk(payload: string, rest: string)
    ensures Listen(Bulk(|payload|, payload, "\n") + rest) == Heard([payload] + Listen(rest).bulks, Listen(rest).error)
  {
    var text := payload + ("\n" + rest);
    ListenBulk(|payload|, payload, rest);
    assert Take(text, |payload|) == payload;
    assert Drop(text, |payload|) == "\n" + rest;
    assert ("\n" + rest)[1..] == rest;
  }

  lemma ListenHeader(rest: string)
    ensures Listen("*3\n" + rest) == Listen(rest)
  {
    LineEndOf("*3", rest);
    assert "*3\n" + rest == "*3" + ("\n" + rest);
    assert ("*3\n" + rest)[3..] == rest;
  }

  // A text announced by its octets comes back exactly if it is ASCII: otherwise more
  // characters are read.
  lemma ListenOctetsIff(payload: string, rest: string)
    ensures var heard := Listen(Bulk(Utf8Length(payload), payload, "\n") + rest);
            && heard.bulks != [] && (heard.bulks[0] == payload <==> Ascii(payload))
            && (Ascii(payload) ==> heard == Heard([payload] + Listen(rest).bulks, Listen(rest).error))
  {
    Utf8LengthIff(payload);
    ListenBulk(Utf8Length(payload), payload, rest);
    if Ascii(payload) {
      ListenRightBulk(payload, rest);
    } else {
      var text := payload + ("\n" + rest);
      assert |Take(text, Utf8Length(payload))| > |payload|;
    }
  }

  // The frame announces the characters that the listener will read.
  predicate Measured(kind: Kind, p: Publication) {
    Ascii(p.message) && (kind.Pushed? ==> Ascii(p.channel))
  }

  lemma ListenChannel(kind: Kind, channel: string, rest: string)
    ensures var heard := Listen(Bulk(kind.ChannelLength(channel), channel, "\n") + rest);
            && heard.bulks != [] && (heard.bulks[0] == channel <==> (kind.Pushed? ==> Ascii(channel)))
            && ((kind.Pushed? ==> Ascii(channel)) ==> heard == Heard([channel] + Listen(rest).bulks, Listen(rest).error))
  {
    if kind.Published? {
      ListenRightBulk(channel, rest);
    } else {
      ListenOctetsIff(channel, rest);
    }
  }

  ghost predicate StartsWith(heard: Heard, bulks: seq<string>) {
    |heard.bulks| >= |bulks| && heard.bulks[..|bulks|] == bulks
  }

  // The rest of a frame from its channel on, and from its message on.
  function FromChannel(kind: Kind, p: Publication, rest: string): string {
    Bulk(kind.ChannelLength(p.channel), p.channel, "\n") + FromMessage(p, rest)
  }

  function FromMessage(p: Publication, rest: string): string {
    Bulk(Utf8Length(p.message), p.message, "\n") + rest
  }

  lemma FrameFromChannel(kind: Kind, p: Publication, rest: string)
    ensures Frame(kind, p, "\n") + rest == "*3\n" + (Bulk(7, kind.Name(), "\n") + FromChannel(kind, p, rest))
  {
    FrameParts(kind, p, "\n", rest);
  }

  lemma ListenName(kind: Kind, after: string)
    ensures Listen("*3\n" + (Bulk(7, kind.Name(), "\n") + after)) == Heard([kind.Name()] + Listen(after).bulks, Listen(after).error)
  {
    ListenHeader(Bulk(7, kind.Name(), "\n") + after);
    ListenRightBulk(kind.Name(), after);
  }

  // Three bulk strings, of which the second and the third may be heard wrong.
  lemma ThreeBulks(name: string, channel: string, message: string, heard: Heard, first: Heard, second: Heard, tail: Heard,
                   okChannel: bool, okMessage: bool)
    requires heard == Heard([name] + first.bulks, first.error)
    requires first.bulks != [] && (first.bulks[0] == channel <==> okChannel)
    requires okChannel ==> first == Heard([channel] + second.bulks, second.error)
    requires second.bulks != [] && (second.bulks[0] == message <==> okMessage)
    requires okMessage ==> second == Heard([message] + tail.bulks, tail.error)
    ensures StartsWith(heard, [name, channel, message]) <==> okChannel && okMessage
    ensures okChannel && okMessage ==> heard == Heard([name, channel, message] + tail.bulks, tail.error)
  {
    assert heard.bulks[1] == first.bulks[0];
    if okChannel {
      assert heard.bulks[2] == second.bulks[0];
      assert heard.bulks[..3] == [name, channel, second.bulks[0]];
    }
  }

  // A frame is heard as its three bulk strings exactly if it is so measured.
  lemma ListenFrameIff(kind: Kind, p: Publication, rest: string)
    ensures var heard := Listen(Frame(kind, p, "\n") + rest);
            && (StartsWith(heard, [kind.Name(), p.channel, p.message]) <==> Measured(kind, p))
            && (Measured(kind, p) ==>
                  heard == Heard([kind.Name(), p.channel, p.message] + Listen(rest).bulks, Listen(rest).error))
  {
    FrameFromChannel(kind, p, rest);
    ListenName(kind, FromChannel(kind, p, rest));
    ListenChannel(kind, p.channel, FromMessage(p, rest));
    ListenOctetsIff(p.message, rest);
    ThreeBulks(kind.Name(), p.channel, p.message, Listen(Frame(kind, p, "\n") + rest),
               Listen(FromChannel(kind, p, rest)), Listen(FromMessage(p, rest)), Listen(rest),
               kind.Pushed? ==> Ascii(p.channel), Ascii(p.message));
  }

  lemma {:induction false} PlainStreamIff(kind: Kind, ps: seq<Publication>)
    ensures Listen(Stream(kind, ps, "\n")) == Heard(Bulks(kind, ps), false) <==> forall p :: p in ps ==> Measured(kind, p)
  {
    if ps != [] {
      var p, rest := ps[0], Stream(kind, ps[1..], "\n");
      var first, more := [kind.Name(), p.channel, p.message], Bulks(kind, ps[1..]);
      ListenFrameIff(kind, p, rest);
      PlainStreamIff(kind, ps[1..]);
      assert ps == [p] + ps[1..];
      assert (first + more)[..3] == first;
      assert first + Listen(rest).bulks == first + more <==> Listen(rest).bulks == more by {
        assert (first + Listen(rest).bulks)[3..] == Listen(rest).bulks && (first + more)[3..] == more;
      }
    }
  }

  // ----- CR never comes back -----

  lemma {:induction false} ListenNoCr(s: string)
    requires NoCr(s)
    ensures forall b :: b in Listen(s).bulks ==> NoCr(b)
    decreases |s|
  {
    if s != [] {
      var line, rest := s[..LineEnd(s)], s[LineEnd(s)..];
      ListenNoCr(rest);
      if line[0] == '$' && ParseDecimal(Strip(line[1..])).Some? {
        var after := Drop(rest, ParseDecimal(Strip(line[1..])).value);
        ListenNoCr(after[LineEnd(after)..]);
      }
    }
  }

  lemma {:induction false} BulksContain(kind: Kind, ps: seq<Publication>, p: Publication)
    requires p in ps
    ensures p.channel in Bulks(kind, ps) && p.message in Bulks(kind, ps)
  {
    if p == ps[0] {
      assert Bulks(kind, ps)[1] == p.channel && Bulks(kind, ps)[2] == p.message;
    } else {
      BulksContain(kind, ps[1..], p);
    }
  }

  // Any run of frames is heard as it was sent exactly if no channel and no message holds a
  // CR and all texts measured in octets are ASCII.
  lemma HeardAsSentIff(kind: Kind, ps: seq<Publication>)
    ensures Listen(Translate(Stream(kind, ps, "\r\n"))) == Heard(Bulks(kind, ps), false)
        <==> forall p :: p in ps ==> Plain(p) && Measured(kind, p)
  {
    if forall p :: p in ps ==> Plain(p) {
      TranslateStream(kind, ps);
      PlainStreamIff(kind, ps);
    } else {
      var p :| p in ps && !Plain(p);
      BulksContain(kind, ps, p);
      TranslateNoCr(Stream(kind, ps, "\r\n"));
      ListenNoCr(Translate(Stream(kind, ps, "\r\n")));
    }
  }

  // ----- The server's end -----

  // The octets of a character in UTF-8.
  function Utf8Octets(c: char): (s: string)
    ensures |s| == Utf8Width(c)
  {
    var n := c as int;
    if n < 0x80 then [c]
    else if n < 0x800 then [(0xC0 + n / 64) as char, (0x80 + n % 64) as char]
    else if n < 0x1_0000 then [(0xE0 + n / 4096) as char, (0x80 + n / 64 % 64) as char, (0x80 + n % 64) as char]
    else [(0xF0 + n / 262144) as char, (0x80 + n / 4096 % 64) as char, (0x80 + n / 64 % 64) as char,
          (0x80 + n % 64) as char]
  }

  function Encoded(octets: char -> string, s: string): string {
    if s == [] then [] else octets(s[0]) + Encoded(octets, s[1..])
  }

  function Utf8(s: string): string {
    Encoded(Utf8Octets, s)
  }

  lemma Regroup(a: string, b: string, c: string)
    ensures a + (b + c) == (a + b) + c
  {
  }

  lemma {:induction false} EncodedAppend(octets: char -> string, a: string, b: string)
    ensures Encoded(octets, a + b) == Encoded(octets, a) + Encoded(octets, b)
  {
    if a == [] {
      assert a + b == b;
    } else {
      EncodedAppend(octets, a[1..], b);
      assert (a + b)[0] == a[0] && (a + b)[1..] == a[1..] + b;
      Regroup(octets(a[0]), Encoded(octets, a[1..]), Encoded(octets, b));
    }
  }

  lemma {:induction false} Utf8HasLength(s: string)
    ensures |Utf8(s)| == Utf8Length(s)
  {
    if s != [] {
      Utf8HasLength(s[1..]);
    }
  }

  lemma {:induction false} Utf8OfAscii(s: string)
    requires Ascii(s)
    ensures Utf8(s) == s
  {
    if s != [] {
      Utf8OfAscii(s[1..]);
    }
  }

  // A bulk string and what follows it: the announced number of octets, and CR LF.
  function ServerBulk(s: string): Option<(string, string)> {
    var n := LineEnd(s);
    if n < 3 || s[0] != '$' || s[n - 2..n] != "\r\n" then None
    else
      var length :- ParseDecimal(s[1..n - 2]);
      var rest := s[n..];
      if |rest| < length + 2 || rest[length..length + 2] != "\r\n" then None
      else Some((rest[..length], rest[length + 2..]))
  }

  // An array of three bulk strings and what follows it.
  function ServerCommand(s: string): Option<(seq<string>, string)> {
    if |s| < 4 || s[..4] != "*3\r\n" then None
    else
      var a :- ServerBulk(s[4..]);
      var b :- ServerBulk(a.1);
      var c :- ServerBulk(b.1);
      Some(([a.0, b.0, c.0], c.1))
  }

  lemma ServerLineEnd(length: nat, text: string, s: string)
    requires s == "$" + Decimal(length) + "\r" + ("\n" + text)
    ensures LineEnd(s) == |Decimal(length)| + 3
  {
    var head := "$" + Decimal(length) + "\r";
    DecimalRoundTrip(length);
    forall i | 0 <= i < |head| ensures head[i] != '\n' {
      if 0 < i < |head| - 1 {
        assert head[i] == Decimal(length)[i - 1];
      }
    }
    LineEndOf(head, text);
  }

  lemma ServerLine(digits: string, text: string, s: string, n: nat)
    requires s == "$" + digits + "\r" + ("\n" + text) && n == |digits| + 3
    ensures s[0] == '$' && s[1..n - 2] == digits && s[n - 2..n] == "\r\n" && s[n..] == text
  {
  }

  // The server reads as many octets as announced, or refuses the bulk string.
  lemma ServerReads(length: nat, octets: string, rest: string)
    ensures var r := ServerBulk(Bulk(length, octets, "\r\n") + rest);
            && (r.Some? ==> |r.value.0| == length)
            && (|octets| == length ==> r == Some((octets, rest)))
  {
    var s, text := Bulk(length, octets, "\r\n") + rest, octets + ("\r\n" + rest);
    assert s == "$" + Decimal(length) + "\r" + ("\n" + text);
    ServerReadsLength(length, text, s);
    if |octets| == length {
      assert text[length..length + 2] == "\r\n" && text[length + 2..] == rest && text[..length] == octets;
    }
  }

  lemma ServerReadsLength(length: nat, text: string, s: string)
    requires s == "$" + Decimal(length) + "\r" + ("\n" + text)
    ensures ServerBulk(s) ==
              if |text| < length + 2 || text[length..length + 2] != "\r\n" then None
              else Some((text[..length], text[length + 2..]))
  {
    ServerLineEnd(length, text, s);
    ServerLine(Decimal(length), text, s, LineEnd(s));
    DecimalRoundTrip(length);
  }

  lemma AsciiBulk(length: nat, payload: string)
    ensures Utf8(Bulk(length, payload, "\r\n")) == Bulk(length, Utf8(payload), "\r\n")
  {
    var head := "$" + Decimal(length) + "\r\n";
    DecimalRoundTrip(length);
    forall i | 0 <= i < |head| ensures head[i] as int < 0x80 {
      if 0 < i < |head| - 2 {
        assert head[i] == Decimal(length)[i - 1];
      }
    }
    Utf8OfAscii(head);
    Utf8OfAscii("\r\n");
    assert Bulk(length, payload, "\r\n") == head + (payload + "\r\n");
    EncodedAppend(Utf8Octets, head, payload + "\r\n");
    EncodedAppend(Utf8Octets, payload, "\r\n");
    assert Bulk(length, Utf8(payload), "\r\n") == head + (Utf8(payload) + "\r\n");
  }

  lemma FourParts(a: string, b: string, c: string, d: string)
    ensures Utf8(a + (b + (c + d))) == Utf8(a) + (Utf8(b) + (Utf8(c) + Utf8(d)))
  {
    EncodedAppend(Utf8Octets, a, b + (c + d));
    EncodedAppend(Utf8Octets, b, c + d);
    EncodedAppend(Utf8Octets, c, d);
  }

  lemma PartsOctets(head: string, name: string, n: nat, channel: string, m: nat, message: string)
    requires Ascii(head) && Ascii(name)
    ensures Utf8(head + (Bulk(7, name, "\r\n") + (Bulk(n, channel, "\r\n") + Bulk(m, message, "\r\n")))) ==
              head + (Bulk(7, name, "\r\n") + (Bulk(n, Utf8(channel), "\r\n") + Bulk(m, Utf8(message), "\r\n")))
  {
    FourParts(head, Bulk(7, name, "\r\n"), Bulk(n, channel, "\r\n"), Bulk(m, message, "\r\n"));
    Utf8OfAscii(head);
    Utf8OfAscii(name);
    AsciiBulk(7, name);
    AsciiBulk(n, channel);
    AsciiBulk(m, message);
  }

  lemma FrameOctets(p: Publication)
    ensures Utf8(Frame(Published, p, "\r\n")) ==
              "*3\r\n" + (Bulk(7, "PUBLISH", "\r\n") + (Bulk(|p.channel|, Utf8(p.channel), "\r\n")
              + Bulk(Utf8Length(p.message), Utf8(p.message), "\r\n")))
  {
    PublishedParts(p);
    PartsOctets("*3\r\n", "PUBLISH", |p.channel|, p.channel, Utf8Length(p.message), p.message);
  }

  lemma PublishedParts(p: Publication)
    ensures Frame(Published, p, "\r\n") ==
              "*3\r\n" + (Bulk(7, "PUBLISH", "\r\n") + (Bulk(|p.channel|, p.channel, "\r\n")
              + Bulk(Utf8Length(p.message), p.message, "\r\n")))
  {
  }

  // The server reads a published frame as the command it means exactly if the channel is
  // ASCII: otherwise it reads fewer octets than the channel has.
  lemma ServerReceivesIff(p: Publication, rest: string)
    ensures ServerCommand(Utf8(Frame(Published, p, "\r\n")) + rest)
              == Some((["PUBLISH", Utf8(p.channel), Utf8(p.message)], rest))
        <==> Ascii(p.channel)
  {
    var t3 := Bulk(Utf8Length(p.message), Utf8(p.message), "\r\n") + rest;
    var t2 := Bulk(|p.channel|, Utf8(p.channel), "\r\n") + t3;
    var t1 := Bulk(7, "PUBLISH", "\r\n") + t2;
    FrameOctets(p);
    var s := Utf8(Frame(Published, p, "\r\n")) + rest;
    assert s == "*3\r\n" + t1;
    assert s[..4] == "*3\r\n" && s[4..] == t1;
    ServerReads(7, "PUBLISH", t2);
    ServerReads(|p.channel|, Utf8(p.channel), t3);
    ServerReads(Utf8Length(p.message), Utf8(p.message), rest);
    Utf8LengthIff(p.channel);
    Utf8HasLength(p.channel);
    Utf8HasLength(p.message);
    if !Ascii(p.channel) {
      assert forall m, r :: ServerCommand(s) == Some((["PUBLISH", Utf8(p.channel), m], r)) ==>
                              ["PUBLISH", Utf8(p.channel), m][1] == ServerBulk(t2).value.0;
    }
  }

  // From the bridge through the server to the listener, any run of publications arrives as
  // it was sent exactly if all its channels and messages are ASCII without CR.
  lemma ArrivesAsPublishedIff(ps: seq<Publication>)
    ensures (&& (forall p :: p in ps ==>
                   ServerCommand(Utf8(Frame(Published, p, "\r\n"))) ==
                     Some((["PUBLISH", Utf8(p.channel), Utf8(p.message)], "")))
             && Listen(Translate(Stream(Pushed, ps, "\r\n"))) == Heard(Bulks(Pushed, ps), false))
        <==> forall p :: p in ps ==> Plain(p) && Ascii(p.channel) && Ascii(p.message)
  {
    HeardAsSentIff(Pushed, ps);
    forall p
      ensures (ServerCommand(Utf8(Frame(Published, p, "\r\n"))) ==
               Some((["PUBLISH", Utf8(p.channel), Utf8(p.message)], ""))) <==> Ascii(p.channel)
    {
      ServerReceivesIff(p, "");
      assert Utf8(Frame(Published, p, "\r\n")) + "" == Utf8(Frame(Published, p, "\r\n"));
    }
  }

  // ----- Lengths and ends of the stream -----

  // What is stripped is white space on both sides, and all of it.
  lemma {:induction false} StripMeans(s: string) returns (i: nat, j: nat)
    ensures i <= j <= |s| && Strip(s) == s[i..j]
    ensures forall k :: 0 <= k < i || j <= k < |s| ==> s[k] in {' ', '\t', '\n', '\r', 11 as char, 12 as char}
    ensures i < j ==>
              && s[i] !in {' ', '\t', '\n', '\r', 11 as char, 12 as char}
              && s[j - 1] !in {' ', '\t', '\n', '\r', 11 as char, 12 as char}
    decreases |s|
  {
    if s == [] {
      i, j := 0, 0;
    } else if IsSpace(s[0]) {
      i, j := StripMeans(s[1..]);
      i, j := i + 1, j + 1;
    } else if IsSpace(s[|s| - 1]) {
      i, j := StripMeans(s[..|s| - 1]);
    } else {
      i, j := 0, |s|;
    }
  }

  // A length that is no number ends the listening with an error.
  lemma BadLengthStops(line: string, rest: string)
    requires forall i :: 0 <= i < |line| ==> line[i] != '\n'
    requires ParseDecimal(Strip(line + "\n")) == None
    ensures Listen("$" + line + ("\n" + rest)) == Heard([], true)
  {
    var s := "$" + line + ("\n" + rest);
    LineEndOf("$" + line, rest);
    assert s[..|line| + 2] == "$" + (line + "\n");
    assert s[..|line| + 2][1..] == line + "\n";
  }

  // A text cut short by the end of the stream is heard as far as it goes.
  lemma CutShort(length: nat, payload: string)
    requires length >= |payload|
    ensures Listen("$" + Decimal(length) + "\n" + payload) == Heard([payload], false)
  {
    var s := "$" + Decimal(length) + "\n" + payload;
    LengthLine(length, payload, s);
    assert s[0] == '$';
    assert Drop(payload, length) == [] && Take(payload, length) == payload;
  }

  // ----- Texts that are lost -----

  const ACCENT: string := [0xE9 as char]

  // A channel of one accented letter is announced as one octet but has two, so the server
  // refuses the command.
  lemma AccentedChannelIsRefused(message: string, rest: string)
    ensures ServerCommand(Utf8(Frame(Published, Publication(ACCENT, message), "\r\n")) + rest) == None
  {
    var p := Publication(ACCENT, message);
    var t3 := Bulk(Utf8Length(message), Utf8(message), "\r\n") + rest;
    var t2 := Bulk(1, Utf8(ACCENT), "\r\n") + t3;
    var t1 := Bulk(7, "PUBLISH", "\r\n") + t2;
    FrameOctets(p);
    var s := Utf8(Frame(Published, p, "\r\n")) + rest;
    assert s == "*3\r\n" + t1;
    assert s[..4] == "*3\r\n" && s[4..] == t1;
    ServerReads(7, "PUBLISH", t2);
    AccentOctets();
    ServerRefuses(1, Utf8(ACCENT), t3);
  }

  lemma AccentOctets()
    ensures |Utf8(ACCENT)| == 2 && Utf8(ACCENT)[1] != '\r'
  {
    var c := ACCENT[0];
    assert c as int == 0xE9;
    assert ACCENT[1..] == [] && Encoded(Utf8Octets, []) == [];
    assert Utf8(ACCENT) == Utf8Octets(c) + [];
    assert Utf8Octets(c)[1] == (0x80 + c as int % 64) as char;
  }

  // After the octets announced there is no line end.
  lemma ServerRefuses(length: nat, octets: string, rest: string)
    requires length < |octets| && octets[length] != '\r'
    ensures ServerBulk(Bulk(length, octets, "\r\n") + rest) == None
  {
    var text := octets + ("\r\n" + rest);
    var s := Bulk(length, octets, "\r\n") + rest;
    assert s == "$" + Decimal(length) + "\r" + ("\n" + text);
    ServerReadsLength(length, text, s);
    if |text| >= length + 2 {
      var next := text[length..length + 2];
      assert next[0] == text[length] == octets[length];
      assert next != "\r\n";
    }
  }

  // A message of one accented letter is heard with the line end behind it.
  lemma AccentedMessageTakesLineEnd(rest: string)
    ensures var heard := Listen(Bulk(Utf8Length(ACCENT), ACCENT, "\n") + rest);
            heard.bulks != [] && heard.bulks[0] == ACCENT + "\n"
  {
    assert ACCENT[1..] == [];
    assert Utf8Length(ACCENT) == 2;
    ListenBulk(2, ACCENT, rest);
    assert (ACCENT + ("\n" + rest))[..2] == ACCENT + "\n";
  }

  // A message that is a CR is heard as something else.
  lemma CrIsLost(kind: Kind, channel: string)
    ensures var ps := [Publication(channel, "\r")];
            Listen(Translate(Stream(kind, ps, "\r\n"))) != Heard(Bulks(kind, ps), false)
  {
    var p := Publication(channel, "\r");
    HeardAsSentIff(kind, [p]);
    assert p in [p] && p.message[0] == '\r';
    assert !Plain(p);
  }
}
