/** Message framing of the Base Protocol (Language Server Protocol Specification 3.17): what is written
    is what is read back. Strings are byte strings; JSON is a pair of parameters. */
module Framing {
  import opened Common

  const MAX_INT := 0x7FFF_FFFF_FFFF_FFFF

  const PREFIX := "Content-Length:"

  // ----- white space, as strings.TrimSpace sees it in UTF-8

  predicate IsAsciiSpace(c: char) {
    '\t' <= c <= '\r' || c == ' '
  }

  /** The width in bytes of the space at the front, or 0. */
  function LeadingSpace(s: string): (k: nat)
    ensures k <= |s|
  {
    if |s| >= 1 && IsAsciiSpace(s[0]) then 1
    else if |s| >= 2 && IsWideSpace(s[..2]) then 2
    else if |s| >= 3 && IsWideSpace(s[..3]) then 3
    else 0
  }

  function TrailingSpace(s: string): (k: nat)
    ensures k <= |s|
  {
    var n := |s|;
    if n >= 1 && IsAsciiSpace(s[n - 1]) then 1
    else if n >= 2 && IsWideSpace(s[n - 2..]) then 2
    else if n >= 3 && IsWideSpace(s[n - 3..]) then 3
    else 0
  }

  /** The UTF-8 encodings of the spaces beyond ASCII. */
  predicate IsWideSpace(s: string) {
    if |s| == 2 then s[0] == '\U{C2}' && (s[1] == '\U{85}' || s[1] == '\U{A0}')
    else
      |s| == 3
      && match s[0]
         case '\U{E1}' => s[1] == '\U{9A}' && s[2] == '\U{80}'
         case '\U{E2}' =>
           || (s[1] == '\U{80}'
               && ('\U{80}' <= s[2] <= '\U{8A}' || s[2] == '\U{A8}' || s[2] == '\U{A9}' || s[2] == '\U{AF}'))
           || (s[1] == '\U{81}' && s[2] == '\U{9F}')
         case '\U{E3}' => s[1] == '\U{80}' && s[2] == '\U{80}'
         case _ => false
  }

  function TrimLeft(s: string): string {
    var k := LeadingSpace(s);
    if k == 0 then s else TrimLeft(s[k..])
  }

  function TrimRight(s: string): string {
    var k := TrailingSpace(s);
    if k == 0 then s else TrimRight(s[..|s| - k])
  }

  function TrimSpace(s: string): string {
    TrimRight(TrimLeft(s))
  }

  // ----- decimal numbers

  function DigitChar(n: nat): char
    requires n < 10
  {
    (n + '0' as int) as char
  }

  predicate IsDigit(c: char) {
    '0' <= c <= '9'
  }

  function Decimal(n: nat): string {
    if n < 10 then [DigitChar(n)] else Decimal(n / 10) + [DigitChar(n % 10)]
  }

  /** The value of a string of digits. */
  function Value(s: string): Option<nat> {
    if s == "" then Some(0)
    else
      var k := |s| - 1;
      match Value(s[..k])
      case Some(v) => if IsDigit(s[k]) then Some(10 * v + (s[k] as nat - '0' as nat)) else None
      case None => None
  }

  /** strconv.Atoi: an optional sign, at least one digit, and the range of a 64-bit int. */
  function Atoi(s: string): Option<int> {
    var signed := s != "" && (s[0] == '+' || s[0] == '-');
    var digits := if signed then s[1..] else s;
    if digits == "" then None
    else
      match Value(digits)
      case None => None
      case Some(v) =>
        var size: int := v;
        var n := if signed && s[0] == '-' then -size else size;
        if -MAX_INT - 1 <= n <= MAX_INT then Some(n) else None
  }

  lemma {:induction false} DecimalDigits(n: nat)
    ensures Decimal(n) != "" && forall i :: 0 <= i < |Decimal(n)| ==> IsDigit(Decimal(n)[i])
    ensures Value(Decimal(n)) == Some(n)
  {
    if n >= 10 {
      DecimalDigits(n / 10);
      var s := Decimal(n);
      assert s[..|s| - 1] == Decimal(n / 10);
    } else {
      assert [DigitChar(n)][..0] == "";
    }
  }

  lemma {:induction false} AtoiDecimal(n: nat)
    requires n <= MAX_INT
    ensures Atoi(Decimal(n)) == Some(n)
  {
    DecimalDigits(n);
    assert IsDigit(Decimal(n)[0]);
  }

  // ----- reading

  datatype ReadError = Eof | BadLength | NoLength | ShortBody | BadMessage

  /** The header loop: the last Content-Length wins, an empty line ends it. */
  function ReadHeaders(s: string, length: int): (Result<int, ReadError>, string)
    decreases |s|
  {
    var k := LineLength(s);
    if k == 0 then (Err(Eof), "")
    else
      var line, rest := TrimSpace(s[..k]), s[k..];
      if line == "" then (Ok(length), rest)
      else if PREFIX <= line then
        match Atoi(TrimSpace(line[|PREFIX|..]))
        case Some(n) => ReadHeaders(rest, n)
        case None => (Err(BadLength), rest)
      else ReadHeaders(rest, length)
  }

  function ReadFrame(s: string): (Result<string, ReadError>, string) {
    match ReadHeaders(s, 0)
    case (Err(e), rest) => (Err(e), rest)
    case (Ok(n), rest) =>
      if n <= 0 then (Err(NoLength), rest)
      else if |rest| < n then (Err(ShortBody), "")
      else (Ok(rest[..n]), rest[n..])
  }

  function ReadOne<M>(unmarshal: string -> Option<M>, s: string): (Result<M, ReadError>, string) {
    match ReadFrame(s)
    case (Err(e), rest) => (Err(e), rest)
    case (Ok(body), rest) =>
      match unmarshal(body)
      case Some(m) => (Ok(m), rest)
      case None => (Err(BadMessage), rest)
  }

  lemma {:induction false} ReadHeadersShrinks(s: string, length: int)
    ensures |ReadHeaders(s, length).1| <= |s|
    ensures ReadHeaders(s, length).0.Ok? ==> |ReadHeaders(s, length).1| < |s|
    decreases |s|
  {
    var k := LineLength(s);
    if k > 0 {
      var line := TrimSpace(s[..k]);
      if line != "" {
        if PREFIX <= line {
          if Atoi(TrimSpace(line[|PREFIX|..])).Some? {
            ReadHeadersShrinks(s[k..], Atoi(TrimSpace(line[|PREFIX|..])).value);
          }
        } else {
          ReadHeadersShrinks(s[k..], length);
        }
      }
    }
  }

  // ----- writing

  function Header(n: nat): string {
    "Content-Length: " + Decimal(n) + "\r\n\r\n"
  }

  function Frame(body: string): string {
    Header(|body|) + body
  }

  /** The frames one after the other. */
  function Frames(bodies: seq<string>): string {
    if bodies == [] then "" else Frames(bodies[..|bodies| - 1]) + Frame(bodies[|bodies| - 1])
  }

  // ----- one frame comes back

  predicate Visible(c: char) {
    '!' <= c <= '~'
  }

  /** Trimming cuts the spaces around a string that starts and ends with visible ASCII, and no more. */
  lemma {:induction false} TrimVisible(s: string)
    requires s != "" && Visible(s[0]) && Visible(s[|s| - 1])
    ensures TrimSpace(s) == s
  {
    NoSpaceAround(s);
  }

  lemma NoSpaceAround(s: string)
    requires s != "" && Visible(s[0]) && Visible(s[|s| - 1])
    ensures LeadingSpace(s) == 0 && TrailingSpace(s) == 0
  {
  }

  lemma {:induction false} TrimBefore(s: string)
    requires s != "" && Visible(s[0]) && Visible(s[|s| - 1])
    ensures TrimSpace(" " + s) == s
  {
    var t := [' '] + s;
    assert t[0] == ' ' && t[1..] == s;
    TrimVisible(s);
    assert TrimLeft(t) == TrimLeft(s);
  }

  lemma {:induction false} TrimAfter(s: string)
    requires s != "" && Visible(s[0]) && Visible(s[|s| - 1])
    ensures TrimSpace(s + "\r\n") == s
  {
    var a, b := s + ['\r'], s + ['\r'] + ['\n'];
    assert b == s + "\r\n";
    assert LeadingSpace(b) == 0 by {
      assert b[0] == s[0];
    }
    assert TrailingSpace(b) == 1 && b[..|b| - 1] == a;
    assert TrailingSpace(a) == 1 && a[..|a| - 1] == s;
    assert TrailingSpace(s) == 0;
    assert TrimRight(a) == s;
  }

  lemma {:induction false} HeaderLine(n: nat)
    requires n <= MAX_INT
    ensures var line := "Content-Length: " + Decimal(n);
            '\n' !in line && TrimSpace(line + "\r\n") == line && PREFIX <= line
            && Atoi(TrimSpace(line[|PREFIX|..])) == Some(n)
  {
    DecimalDigits(n);
    var d := Decimal(n);
    var line := "Content-Length: " + d;
    assert line[0] == 'C' && line[|line| - 1] == d[|d| - 1];
    TrimAfter(line);
    assert line[|PREFIX|..] == " " + d;
    TrimBefore(d);
    AtoiDecimal(n);
    assert forall i :: 0 <= i < |d| ==> d[i] != '\n';
  }

  lemma {:induction false} ReadHeaderBack(n: nat, more: string)
    requires n <= MAX_INT
    ensures ReadHeaders(Header(n) + more, 0) == (Ok(n), more)
  {
    var line := "Content-Length: " + Decimal(n);
    HeaderLine(n);
    var s := Header(n) + more;
    assert s == (line + "\r") + "\n" + ("\r\n" + more);
    LineLengthIs(line + "\r", "\r\n" + more);
    assert s[..|line| + 2] == line + "\r\n" && s[|line| + 2..] == "\r\n" + more;
    EmptyLineEnds(n, more);
  }

  lemma {:induction false} EmptyLineEnds(n: int, more: string)
    ensures ReadHeaders("\r\n" + more, n) == (Ok(n), more)
  {
    var s := "\r\n" + more;
    assert s == "\r" + "\n" + more;
    LineLengthIs("\r", more);
    assert s[..2] == "\r\n" && s[2..] == more;
    assert LeadingSpace("\r\n") == 1 && "\r\n"[1..] == "\n" && LeadingSpace("\n") == 1 && "\n"[1..] == "";
  }

  /** A frame with a body is read back whole, whatever bytes it holds; without one it is refused. */
  lemma {:induction false} FrameRoundTrip(body: string, more: string)
    requires |body| <= MAX_INT
    ensures ReadFrame(Frame(body) + more) == if body == "" then (Err(NoLength), more) else (Ok(body), more)
  {
    assert Frame(body) + more == Header(|body|) + (body + more);
    ReadHeaderBack(|body|, body + more);
    assert (body + more)[..|body|] == body && (body + more)[|body|..] == more;
  }

  // ----- a whole stream comes back

  /** Everything read until an error, and that error. */
  function ReadAll(s: string): (seq<string>, ReadError)
    decreases |s|
  {
    ReadHeadersShrinks(s, 0);
    match ReadFrame(s)
    case (Err(e), _) => ([], e)
    case (Ok(body), rest) => var (bodies, e) := ReadAll(rest); ([body] + bodies, e)
  }

  lemma FramesAppended(bodies: seq<string>, last: string)
    ensures Frames(bodies + [last]) == Frames(bodies) + Frame(last)
  {
    assert (bodies + [last])[..|bodies|] == bodies;
  }

  lemma {:induction false} FramesCons(first: string, bodies: seq<string>)
    ensures Frames([first] + bodies) == Frame(first) + Frames(bodies)
  {
    if bodies == [] {
      FramesAppended([], first);
      assert [first] + bodies == [] + [first];
    } else {
      var rest, last := bodies[..|bodies| - 1], bodies[|bodies| - 1];
      FramesCons(first, rest);
      FramesAppended([first] + rest, last);
      FramesAppended(rest, last);
      assert rest + [last] == bodies && ([first] + rest) + [last] == [first] + bodies;
      Associative(Frame(first), Frames(rest), Frame(last));
    }
  }

  lemma FramesFirst(bodies: seq<string>)
    requires bodies != []
    ensures Frames(bodies) == Frame(bodies[0]) + Frames(bodies[1..])
  {
    FramesCons(bodies[0], bodies[1..]);
    assert [bodies[0]] + bodies[1..] == bodies;
  }

  ghost predicate Sendable(bodies: seq<string>) {
    forall i :: 0 <= i < |bodies| ==> 0 < |bodies[i]| <= MAX_INT
  }

  /** Reading the concatenation of any frames with non-empty bodies gives those bodies in order, then EOF. */
  lemma {:induction false} StreamRoundTrip(bodies: seq<string>)
    requires Sendable(bodies)
    ensures ReadAll(Frames(bodies)) == (bodies, Eof)
  {
    if bodies == [] {
      assert LineLength("") == 0;
    } else {
      FramesFirst(bodies);
      FrameRoundTrip(bodies[0], Frames(bodies[1..]));
      StreamRoundTrip(bodies[1..]);
      assert bodies == [bodies[0]] + bodies[1..];
    }
  }

  // ----- the server

  /** How the loop ends: a message that cannot be read, a reply that cannot be encoded, or a failing write. */
  datatype End = NotRead(error: ReadError) | NotEncoded | NotWritten

  /** The first `room` bytes of a string, or all of it. */
  function Cut(s: string, room: nat): string {
    s[..Min(room, |s|)]
  }

  class Server<M> {
    var input: string   // what is left to read
    var output: string  // what has been written
    var room: nat       // how many bytes more the output accepts; writes fail from there on
    var running: bool

    constructor (input: string, room: nat)
      ensures this.input == input && output == "" && this.room == room && !running
    {
      this.input, output, this.room, running := input, "", room, false;
    }

    method ReadLine() returns (line: string, eof: bool)
      modifies this`input
      ensures eof <==> LineLength(old(input)) == 0
      ensures !eof ==> line == old(input)[..LineLength(old(input))] && input == old(input)[LineLength(old(input))..]
      ensures eof ==> input == ""
    {
      var k := LineLength(input);
      if k == 0 {
        input := "";
        return "", true;
      }
      line, eof := input[..k], false;
      input := input[k..];
    }

    method ReadMessage(unmarshal: string -> Option<M>) returns (r: Result<M, ReadError>)
      modifies this`input
      ensures (r, input) == ReadOne(unmarshal, old(input))
      ensures |input| <= |old(input)| && (r.Ok? ==> |input| < |old(input)|)
    {
      ReadHeadersShrinks(input, 0);
      var contentLength := 0;
      while true
        invariant ReadHeaders(input, contentLength) == ReadHeaders(old(input), 0)
        decreases |input|
      {
        var line, eof := ReadLine();
        if eof {
          return Err(Eof);
        }
        line := TrimSpace(line);
        if line == "" {
          break;
        }
        if PREFIX <= line {
          var n := Atoi(TrimSpace(line[|PREFIX|..]));
          if n.None? {
            return Err(BadLength);
          }
          contentLength := n.value;
        }
      }
      if contentLength <= 0 {
        return Err(NoLength);
      }
      if |input| < contentLength {
        input := "";
        return Err(ShortBody);
      }
      var body := input[..contentLength];
      input := input[contentLength..];
      var m := unmarshal(body);
      return if m.Some? then Ok(m.value) else Err(BadMessage);
    }

    /** One write to the output: it fails exactly when not all bytes are accepted. */
    method Write(s: string) returns (ok: bool)
      modifies this`output, this`room
      ensures ok <==> |s| <= old(room)
      ensures output == old(output) + Cut(s, old(room)) && room == old(room) - |Cut(s, old(room))|
    {
      ok := |s| <= room;
      output := output + Cut(s, room);
      room := room - Min(room, |s|);
    }

    /** One whole frame, as far as the output accepts it; nothing when the message cannot be encoded. */
    method WriteMessage(marshal: M -> Option<string>, m: M) returns (error: Option<End>)
      modifies this`output, this`room
      ensures error == if marshal(m).None? then Some(NotEncoded)
                       else if |Frame(marshal(m).value)| > old(room) then Some(NotWritten)
                       else None
      ensures marshal(m).None? ==> output == old(output) && room == old(room)
      ensures marshal(m).Some? ==>
                && output == old(output) + Cut(Frame(marshal(m).value), old(room))
                && room == old(room) - |Cut(Frame(marshal(m).value), old(room))|
    {
      var encoded := marshal(m);
      if encoded.None? {
        return Some(NotEncoded);
      }
      var body := encoded.value;
      CutTwice(Header(|body|), body, room);
      var ok := Write(Header(|body|));
      if !ok {
        return Some(NotWritten);
      }
      ok := Write(body);
      return if ok then None else Some(NotWritten);
    }

    /** Reads one message and sends the reply, if there is one. */
    method Serve(marshal: M -> Option<string>, unmarshal: string -> Option<M>, dispatch: M -> Option<M>)
      returns (error: Option<End>)
      modifies this`input, this`output, this`room
      ensures error.None? ==> |input| < |old(input)|
      ensures Served(Answers(marshal, unmarshal, dispatch, old(input)), Answers(marshal, unmarshal, dispatch, input),
                     old(output), output, old(room), room, error)
    {
      var msg := ReadMessage(unmarshal);
      if msg.Err? {
        return Some(NotRead(msg.error));
      }
      ghost var rest := Answers(marshal, unmarshal, dispatch, input).0;
      var response := dispatch(msg.value);
      if response.None? {
        assert "" + rest == rest;
        return None;
      }
      error := WriteMessage(marshal, response.value);
      if marshal(response.value).Some? {
        CutWithin(old(output), Frame(marshal(response.value).value), rest, old(room));
      }
    }

    /** The read-dispatch-write loop. Its output is what there is to answer, as far as it is accepted. It ends
        with the first error; EOF is a normal end. */
    method Run(marshal: M -> Option<string>, unmarshal: string -> Option<M>, dispatch: M -> Option<M>)
      returns (error: Option<End>)
      modifies this
      ensures var (all, end) := Answers(marshal, unmarshal, dispatch, old(input));
              && output == old(output) + Cut(all, old(room))
              && error == if |all| > old(room) then Some(NotWritten) else NormalEnd(end)
    {
      running := true;
      ghost var (all, end) := Answers(marshal, unmarshal, dispatch, input);
      ghost var first, start, rest := output, room, all;
      while true
        invariant Answers(marshal, unmarshal, dispatch, input) == (rest, end)
        invariant SoFar(first, all, output, rest, start, room)
        decreases |input|
      {
        ghost var out, left := output, room;
        error := Serve(marshal, unmarshal, dispatch);
        ghost var now := Answers(marshal, unmarshal, dispatch, input);
        ServedSoFar(first, all, start, (rest, end), now, out, output, left, room, error);
        if error.Some? {
          return NormalEnd(error.value);
        }
        rest := now.0;
      }
    }
  }

  /** What one turn of the loop does: it writes a part of what there was to answer, or all that is accepted
      of it, or ends without writing. */
  ghost predicate Served(
    was: (string, End), now: (string, End), out: string, out': string, room: nat, room': nat, error: Option<End>)
  {
    match error
    case None => was.1 == now.1 && out <= out' && out' + now.0 == out + was.0 && |out'| + room' == |out| + room
    case Some(e) =>
      if e == NotWritten then |was.0| > room && out' == out + Cut(was.0, room)
      else was == ("", e) && out' == out
  }

  lemma ServedSoFar(
    first: string, all: string, start: nat, was: (string, End), now: (string, End),
    out: string, out': string, room: nat, room': nat, error: Option<End>)
    requires SoFar(first, all, out, was.0, start, room) && Served(was, now, out, out', room, room', error)
    ensures error.None? ==> SoFar(first, all, out', now.0, start, room') && was.1 == now.1
    ensures error.Some? ==>
              out' == first + Cut(all, start) && error.value == if |all| > start then NotWritten else was.1
  {
    if error.Some? {
      EndsHere(first, all, out, was.0, start, room);
      assert out + Cut("", room) == out;
    }
  }

  /** `out` is what was there first and the part of `all` written since, with `rest` still to come. */
  ghost predicate SoFar(first: string, all: string, out: string, rest: string, start: nat, room: nat) {
    first <= out && out + rest == first + all && |out| + room == |first| + start
  }

  lemma EndsHere(first: string, all: string, out: string, rest: string, start: nat, room: nat)
    requires SoFar(first, all, out, rest, start, room)
    ensures out + Cut(rest, room) == first + Cut(all, start)
    ensures |all| > start <==> |rest| > room
  {
    var written := out[|first|..];
    assert out == first + written;
    assert (first + all)[|first|..] == all && (out + rest)[|first|..] == written + rest;
    CutTwice(written, rest, start);
    Associative(first, written, Cut(rest, room));
  }

  lemma CutTwice(a: string, b: string, room: nat)
    ensures Cut(a + b, room) == Cut(a, room) + if |a| <= room then Cut(b, room - |a|) else ""
  {
  }

  lemma CutWithin(out: string, frame: string, rest: string, room: nat)
    ensures |frame| > room ==> |frame + rest| > room && Cut(frame + rest, room) == Cut(frame, room)
    ensures |frame| <= room ==> out + Cut(frame, room) + rest == out + (frame + rest)
  {
  }

  function NormalEnd(end: End): Option<End> {
    if end == NotRead(Eof) then None else Some(end)
  }

  /** What the loop has to write for an input, and what ends it when every write succeeds. */
  function Answers<M>(
    marshal: M -> Option<string>, unmarshal: string -> Option<M>, dispatch: M -> Option<M>, s: string): (string, End)
    decreases |s|
  {
    ReadHeadersShrinks(s, 0);
    match ReadOne(unmarshal, s)
    case (Err(e), _) => ("", NotRead(e))
    case (Ok(m), rest) =>
      if dispatch(m).Some? && marshal(dispatch(m).value).None? then ("", NotEncoded)
      else
        var (more, end) := Answers(marshal, unmarshal, dispatch, rest);
        (ReplyFrame(marshal, dispatch, m) + more, end)
  }

  /** The frame of the reply to a message, if it has one. */
  function ReplyFrame<M>(marshal: M -> Option<string>, dispatch: M -> Option<M>, m: M): string {
    match dispatch(m)
    case None => ""
    case Some(r) => match marshal(r) case Some(body) => Frame(body) case None => ""
  }

  function Replies<M>(marshal: M -> Option<string>, dispatch: M -> Option<M>, ms: seq<M>): string {
    if ms == [] then "" else ReplyFrame(marshal, dispatch, ms[0]) + Replies(marshal, dispatch, ms[1..])
  }

  function Bodies<M>(encode: M -> string, ms: seq<M>): seq<string> {
    if ms == [] then [] else [encode(ms[0])] + Bodies(encode, ms[1..])
  }

  /** A client's messages are all answered, in order, and the end of its stream is a normal end. */
  lemma {:induction false} ServerAnswersAll<M>(
    encode: M -> string, marshal: M -> Option<string>, unmarshal: string -> Option<M>, dispatch: M -> Option<M>,
    ms: seq<M>)
    requires forall m :: m in ms ==> 0 < |encode(m)| <= MAX_INT && unmarshal(encode(m)) == Some(m)
    requires forall m :: m in ms && dispatch(m).Some? ==> marshal(dispatch(m).value).Some?
    ensures Answers(marshal, unmarshal, dispatch, Frames(Bodies(encode, ms)))
            == (Replies(marshal, dispatch, ms), NotRead(Eof))
  {
    var bodies := Bodies(encode, ms);
    if ms == [] {
      assert LineLength("") == 0;
    } else {
      FramesFirst(bodies);
      assert bodies[1..] == Bodies(encode, ms[1..]);
      FrameRoundTrip(bodies[0], Frames(bodies[1..]));
      ServerAnswersAll(encode, marshal, unmarshal, dispatch, ms[1..]);
    }
  }

  // ----- other headers, and what is refused

  /** A header line is read by itself: an empty one ends the headers, Content-Length sets the length, and any
      other is passed over. */
  lemma {:induction false} HeaderLineRead(line: string, rest: string, length: int)
    requires '\n' !in line
    ensures var header, all := TrimSpace(line + "\n"), line + "\n" + rest;
            ReadHeaders(all, length) ==
            if header == "" then (Ok(length), rest)
            else if !(PREFIX <= header) then ReadHeaders(rest, length)
            else
              match Atoi(TrimSpace(header[|PREFIX|..]))
              case Some(n) => ReadHeaders(rest, n)
              case None => (Err(BadLength), rest)
  {
    var all := line + "\n" + rest;
    LineLengthIs(line, rest);
    assert all[..|line| + 1] == line + "\n" && all[|line| + 1..] == rest;
  }

  /** A frame is read back whatever other header stands in front of its Content-Length. */
  lemma {:induction false} OtherHeaderPassedOver(line: string, body: string, more: string)
    requires '\n' !in line && line != "" && Visible(line[0]) && Visible(line[|line| - 1]) && !(PREFIX <= line)
    requires 0 < |body| <= MAX_INT
    ensures ReadFrame(line + "\r\n" + (Frame(body) + more)) == (Ok(body), more)
  {
    PassedOver(line, Frame(body) + more, 0);
    FrameRoundTrip(body, more);
  }

  lemma PassedOver(line: string, rest: string, length: int)
    requires '\n' !in line && line != "" && Visible(line[0]) && Visible(line[|line| - 1]) && !(PREFIX <= line)
    ensures ReadHeaders(line + "\r\n" + rest, length) == ReadHeaders(rest, length)
  {
    assert line + "\r\n" + rest == (line + "\r") + "\n" + rest;
    assert (line + "\r") + "\n" == line + "\r\n";
    TrimAfter(line);
    HeaderLineRead(line + "\r", rest, length);
  }

  /** A body that is cut short is refused. */
  lemma {:induction false} ShortBodyRefused(n: nat, body: string)
    requires |body| < n <= MAX_INT
    ensures ReadFrame(Header(n) + body) == (Err(ShortBody), "")
  {
    ReadHeaderBack(n, body);
  }

  /** A stream without a newline ends in the headers. */
  lemma NoLineIsEof(s: string)
    requires '\n' !in s
    ensures ReadFrame(s) == (Err(Eof), "")
  {
  }

  lemma {:induction false} ValueOfDigits(s: string)
    ensures Value(s).Some? <==> forall i :: 0 <= i < |s| ==> IsDigit(s[i])
  {
    if s != "" {
      ValueOfDigits(s[..|s| - 1]);
    }
  }

  /** A number may have a sign, and must have digits and nothing else. */
  lemma {:induction false} AtoiSigned(n: nat)
    requires n <= MAX_INT
    ensures Atoi("+" + Decimal(n)) == Some(n)
    ensures Atoi("-" + Decimal(n)).Some? && Atoi("-" + Decimal(n)).value == 0 - n
  {
    DecimalDigits(n);
    assert ("-" + Decimal(n))[1..] == Decimal(n) && ("+" + Decimal(n))[1..] == Decimal(n);
  }

  lemma {:induction false} AtoiOnlyDigits(s: string)
    requires Atoi(s).Some?
    ensures var digits := if s[0] == '+' || s[0] == '-' then s[1..] else s;
            digits != "" && forall i :: 0 <= i < |digits| ==> IsDigit(digits[i])
  {
    ValueOfDigits(if s[0] == '+' || s[0] == '-' then s[1..] else s);
  }

  /** The form of a frame on the wire. */
  lemma FrameForInstance()
    ensures Frame("hello") == "Content-Length: 5\r\n\r\nhello"
  {
  }
}
