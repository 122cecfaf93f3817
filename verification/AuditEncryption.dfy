/** The encrypted audit log: lines sealed by any number of loggers, decrypted back in order. Strings are
    byte strings; the primitives (key derivation, AEAD, base64, JSON) are parameters. */
module AuditEncryption {
  import opened Common

  const VERSION := 1
  const ALGORITHM := "chacha20-poly1305"
  const ASSOCIATED := "1:chacha20-poly1305"  // version and algorithm, bound to every line
  const NONCE_SIZE := 24                     // the extended-nonce variant

  datatype Entry = Entry(version: int, algorithm: string, salt: string, nonce: string, cipher: string)

  datatype Crypto = Crypto(
    derive: (string, string) -> string,                   // passphrase, salt
    seal: (string, string, string, string) -> string,     // key, nonce, plaintext, associated data
    open: (string, string, string, string) -> Option<string>,
    encode: string -> string,
    decode: string -> Option<string>,
    marshal: Entry -> string,
    unmarshal: string -> Option<Entry>)

  /** The only entries a logger writes: every text field is fixed ASCII or the output of `encode`. */
  function Written(c: Crypto, salt: string, nonce: string, cipher: string): Entry {
    Entry(VERSION, ALGORITHM, c.encode(salt), c.encode(nonce), c.encode(cipher))
  }

  /** An entry that is written as one non-empty line and read back from it. */
  ghost predicate OneLine(c: Crypto, e: Entry) {
    c.unmarshal(c.marshal(e)) == Some(e) && c.marshal(e) != "" && '\n' !in c.marshal(e)
  }

  /** Opening undoes sealing, decoding undoes encoding, and JSON carries the entries a logger writes. Nothing
      is assumed of other entries: JSON does not carry a text that is not valid UTF-8. */
  ghost predicate Ideal(c: Crypto) {
    && (forall k, n, p, a :: c.open(k, n, c.seal(k, n, p, a), a) == Some(p))
    && (forall s :: c.decode(c.encode(s)) == Some(s))
    && (forall s, n, x :: OneLine(c, Written(c, s, n, x)))
  }

  // ----- lines

  /** The lines of a file; a last line needs no newline, unless it is empty. */
  function Lines(data: string): seq<string> {
    if data == "" then []
    else
      var k := LineLength(data);
      if k == 0 then [data] else [data[..k - 1]] + Lines(data[k..])
  }

  lemma {:induction false} LinesFirst(line: string, rest: string)
    requires '\n' !in line
    ensures Lines(line + "\n" + rest) == [line] + Lines(rest)
  {
    var data := line + "\n" + rest;
    LineLengthIs(line, rest);
    assert data[..|line|] == line && data[|line| + 1..] == rest;
  }

  lemma {:induction false} LinesFrom(data: string, start: nat, i: nat)
    requires start <= i < |data| && data[i] == '\n' && forall j :: start <= j < i ==> data[j] != '\n'
    ensures Lines(data[start..]) == [data[start..i]] + Lines(data[i + 1..])
  {
    assert data[start..] == data[start..i] + "\n" + data[i + 1..];
    LinesFirst(data[start..i], data[i + 1..]);
  }

  /** `lines` holds the lines of `data` that end before `start`, and none ends from there up to `i`. */
  ghost predicate SplitUpTo(data: string, lines: seq<string>, start: nat, i: nat) {
    && start <= i <= |data|
    && lines + Lines(data[start..]) == Lines(data)
    && forall j :: start <= j < i ==> data[j] != '\n'
  }

  lemma SplitStart(data: string)
    ensures SplitUpTo(data, [], 0, 0)
  {
    assert data[0..] == data;
  }

  lemma SplitHere(data: string, lines: seq<string>, start: nat, i: nat)
    requires SplitUpTo(data, lines, start, i) && i < |data| && data[i] == '\n'
    ensures SplitUpTo(data, lines + [data[start..i]], i + 1, i + 1)
  {
    LinesFrom(data, start, i);
    var line, rest := data[start..i], Lines(data[i + 1..]);
    assert lines + ([line] + rest) == (lines + [line]) + rest;
  }

  lemma LastLine(data: string, start: nat)
    requires start < |data| && forall j :: start <= j < |data| ==> data[j] != '\n'
    ensures Lines(data[start..]) == [data[start..]]
  {
    var line := data[start..];
    assert forall j :: 0 <= j < |line| ==> line[j] != '\n';
  }

  lemma SplitEnd(data: string, lines: seq<string>, start: nat)
    requires SplitUpTo(data, lines, start, |data|)
    ensures Lines(data) == if start < |data| then lines + [data[start..]] else lines
  {
    if start < |data| {
      LastLine(data, start);
    }
  }

  method SplitLines(data: string) returns (lines: seq<string>)
    ensures lines == Lines(data)
  {
    lines := [];
    var start := 0;
    SplitStart(data);
    for i := 0 to |data|
      invariant 0 <= start && SplitUpTo(data, lines, start, i)
    {
      if data[i] == '\n' {
        SplitHere(data, lines, start, i);
        lines := lines + [data[start..i]];
        start := i + 1;
      }
    }
    SplitEnd(data, lines, start);
    if start < |data| {
      lines := lines + [data[start..]];
    }
  }

  /** Each line followed by a newline. */
  function Joined(lines: seq<string>): string {
    if lines == [] then "" else Joined(lines[..|lines| - 1]) + lines[|lines| - 1] + "\n"
  }

  lemma {:induction false} JoinedFirst(lines: seq<string>)
    requires lines != []
    ensures Joined(lines) == lines[0] + "\n" + Joined(lines[1..])
  {
    var k := |lines| - 1;
    if k > 0 {
      JoinedFirst(lines[..k]);
      assert lines[..k][1..] == lines[1..][..k - 1];
    }
  }

  /** Splitting undoes joining ... */
  lemma {:induction false} LinesJoined(lines: seq<string>)
    requires forall l :: l in lines ==> '\n' !in l
    ensures Lines(Joined(lines)) == lines
  {
    if lines != [] {
      JoinedFirst(lines);
      LinesFirst(lines[0], Joined(lines[1..]));
      LinesJoined(lines[1..]);
      assert lines == [lines[0]] + lines[1..];
    }
  }

  /** ... and joining undoes splitting, up to a newline the file may lack at its end. */
  lemma {:induction false} JoinedLines(data: string)
    ensures Joined(Lines(data)) == if data == "" || data[|data| - 1] == '\n' then data else data + "\n"
  {
    if data != "" {
      var k := LineLength(data);
      if k == 0 {
        LastLine(data, 0);
        assert data[0..] == data;
        JoinedOne(data);
      } else {
        CutLine(data, k);
        LineThenRest(data[..k - 1], data[k..]);
        JoinedLines(data[k..]);
      }
    }
  }

  lemma CutLine(data: string, k: nat)
    requires 0 < k <= |data| && data[k - 1] == '\n'
    ensures data == data[..k - 1] + "\n" + data[k..]
    ensures data[k..] != "" ==> data[k..][|data[k..]| - 1] == data[|data| - 1]
  {
  }

  lemma LineThenRest(line: string, rest: string)
    requires '\n' !in line
    ensures Joined(Lines(line + "\n" + rest)) == line + "\n" + Joined(Lines(rest))
  {
    LinesFirst(line, rest);
    JoinedMore(line, Lines(rest));
  }

  lemma JoinedMore(line: string, lines: seq<string>)
    ensures Joined([line] + lines) == line + "\n" + Joined(lines)
  {
    JoinedFirst([line] + lines);
    assert ([line] + lines)[1..] == lines;
  }

  lemma JoinedOne(line: string)
    ensures Joined([line]) == line + "\n"
  {
    assert [line][..0] == [];
  }

  // ----- sealing

  function SealedLine(c: Crypto, key: string, salt: string, nonce: string, plaintext: string): string {
    c.marshal(Written(c, salt, nonce, c.seal(key, nonce, plaintext, ASSOCIATED)))
  }

  class LogFile {
    var data: string

    constructor ()
      ensures data == ""
    {
      data := "";
    }
  }

  /** A logger for the file, with a drawn salt; an empty passphrase is refused. */
  method OpenLogger(crypto: Crypto, file: LogFile, passphrase: string, salt: string)
    returns (logger: Option<EncryptedLogger>)
    ensures logger.None? <==> passphrase == ""
    ensures logger.Some? ==>
              var l := logger.value;
              l.crypto == crypto && l.file == file && l.salt == salt && l.key == crypto.derive(passphrase, salt)
  {
    if passphrase == "" {
      return None;
    }
    var l := new EncryptedLogger(crypto, file, passphrase, salt);
    return Some(l);
  }

  class EncryptedLogger {
    const crypto: Crypto
    const file: LogFile
    const key: string
    const salt: string

    constructor (crypto: Crypto, file: LogFile, passphrase: string, salt: string)
      ensures this.crypto == crypto && this.file == file && this.salt == salt && key == crypto.derive(passphrase, salt)
    {
      this.crypto, this.file, this.salt := crypto, file, salt;
      key := crypto.derive(passphrase, salt);
    }

    /** Appends one sealed line, as far as the file takes it; the nonce is drawn by the caller. */
    method Log(plaintext: string, nonce: string, room: nat) returns (ok: bool)
      modifies file
      ensures var line := SealedLine(crypto, key, salt, nonce, plaintext) + "\n";
              (ok <==> |line| <= room) && file.data == old(file.data) + if ok then line else line[..room]
    {
      var cipher := crypto.seal(key, nonce, plaintext, ASSOCIATED);
      var entry := Entry(VERSION, ALGORITHM, crypto.encode(salt), crypto.encode(nonce), crypto.encode(cipher));
      var line := crypto.marshal(entry) + "\n";
      ok := |line| <= room;
      file.data := file.data + if ok then line else line[..room];
    }
  }

  // ----- opening

  datatype Failure = NotAnEntry | BadVersion | BadAlgorithm | BadSalt | BadNonce | BadCipher | OpenFailed

  /** What becomes of one line. The cipher panics on a nonce of the wrong size instead of refusing it. */
  datatype Outcome = Opened(plaintext: string) | Refused(failure: Failure) | Panicked

  /** The checks in their order. */
  function DecryptEntry(c: Crypto, passphrase: string, e: Entry): Outcome {
    if e.version != VERSION then Refused(BadVersion)
    else if e.algorithm != ALGORITHM then Refused(BadAlgorithm)
    else
      match (c.decode(e.salt), c.decode(e.nonce), c.decode(e.cipher))
      case (None, _, _) => Refused(BadSalt)
      case (_, None, _) => Refused(BadNonce)
      case (_, _, None) => Refused(BadCipher)
      case (Some(salt), Some(nonce), Some(cipher)) =>
        if |nonce| != NONCE_SIZE then Panicked
        else
          match c.open(c.derive(passphrase, salt), nonce, cipher, ASSOCIATED)
          case None => Refused(OpenFailed)
          case Some(plaintext) => Opened(plaintext)
  }

  function DecryptLine(c: Crypto, passphrase: string, line: string): Outcome {
    match c.unmarshal(line)
    case None => Refused(NotAnEntry)
    case Some(e) => DecryptEntry(c, passphrase, e)
  }

  /** How a run ends: at the last line, at a line that is refused (numbered from 1), or in a panic. */
  datatype Ending = Finished | Stopped(line: nat, failure: Failure) | Crashed(line: nat)

  /** The output for the lines, and how the run over them ends. */
  function DecryptLines(c: Crypto, passphrase: string, lines: seq<string>): (string, Ending) {
    if lines == [] then ("", Finished)
    else
      var k := |lines| - 1;
      var (out, ending) := DecryptLines(c, passphrase, lines[..k]);
      if !ending.Finished? || lines[k] == "" then (out, ending)
      else
        match DecryptLine(c, passphrase, lines[k])
        case Opened(plaintext) => (out + plaintext + "\n", Finished)
        case Refused(f) => (out, Stopped(k + 1, f))
        case Panicked => (out, Crashed(k + 1))
  }

  lemma {:induction false} EndingStays(c: Crypto, passphrase: string, lines: seq<string>, k: nat)
    requires k <= |lines| && !DecryptLines(c, passphrase, lines[..k]).1.Finished?
    ensures DecryptLines(c, passphrase, lines) == DecryptLines(c, passphrase, lines[..k])
  {
    if k < |lines| {
      var n := |lines| - 1;
      assert lines[..n][..k] == lines[..k];
      EndingStays(c, passphrase, lines[..n], k);
    } else {
      assert lines[..k] == lines;
    }
  }

  method DecryptFile(c: Crypto, passphrase: string, data: string) returns (out: string, ending: Ending)
    ensures (out, ending) == DecryptLines(c, passphrase, Lines(data))
  {
    out, ending := "", Finished;
    var lines := SplitLines(data);
    for i := 0 to |lines|
      invariant (out, ending) == DecryptLines(c, passphrase, lines[..i]) && ending.Finished?
    {
      assert lines[..i + 1][..i] == lines[..i];
      if lines[i] != "" {
        match DecryptLine(c, passphrase, lines[i]) {
          case Opened(plaintext) =>
            out := out + plaintext + "\n";
          case Refused(f) =>
            ending := Stopped(i + 1, f);
            EndingStays(c, passphrase, lines, i + 1);
            return;
          case Panicked =>
            ending := Crashed(i + 1);
            EndingStays(c, passphrase, lines, i + 1);
            return;
        }
      }
    }
    assert lines[..|lines|] == lines;
  }

  // ----- when a run crashes

  /** The line is an entry in order but for a nonce that does not have the size the cipher wants. */
  predicate WrongNonceSize(c: Crypto, line: string) {
    match c.unmarshal(line)
    case None => false
    case Some(e) =>
      && e.version == VERSION && e.algorithm == ALGORITHM
      && c.decode(e.salt).Some? && c.decode(e.nonce).Some? && c.decode(e.cipher).Some?
      && |c.decode(e.nonce).value| != NONCE_SIZE
  }

  /** A line panics exactly when only its nonce has the wrong size, whatever the passphrase. */
  lemma PanicsIff(c: Crypto, passphrase: string, line: string)
    ensures DecryptLine(c, passphrase, line).Panicked? <==> WrongNonceSize(c, line)
  {
  }

  /** The entry is in order under the passphrase, and holds this plaintext. */
  predicate Holds(c: Crypto, passphrase: string, e: Entry, plaintext: string) {
    && e.version == VERSION && e.algorithm == ALGORITHM
    && c.decode(e.salt).Some? && c.decode(e.nonce).Some? && c.decode(e.cipher).Some?
    && |c.decode(e.nonce).value| == NONCE_SIZE
    && c.open(c.derive(passphrase, c.decode(e.salt).value), c.decode(e.nonce).value, c.decode(e.cipher).value,
              ASSOCIATED) == Some(plaintext)
  }

  /** A line opens exactly when it parses to such an entry; so a refusing cipher never passes for a plaintext. */
  lemma OpensIff(c: Crypto, passphrase: string, line: string, plaintext: string)
    ensures DecryptLine(c, passphrase, line) == Opened(plaintext)
            <==> exists e :: c.unmarshal(line) == Some(e) && Holds(c, passphrase, e, plaintext)
  {
  }

  /** And it is refused with the first of the program's checks that fails. */
  lemma RefusedIff(c: Crypto, passphrase: string, line: string)
    ensures DecryptLine(c, passphrase, line) == Refused(NotAnEntry) <==> c.unmarshal(line).None?
    ensures forall e :: c.unmarshal(line) == Some(e) ==>
              var r, decoded := DecryptLine(c, passphrase, line),
                                (c.decode(e.salt).Some?, c.decode(e.nonce).Some?, c.decode(e.cipher).Some?);
              && (r == Refused(BadVersion) <==> e.version != VERSION)
              && (r == Refused(BadAlgorithm) <==> e.version == VERSION && e.algorithm != ALGORITHM)
              && (e.version == VERSION && e.algorithm == ALGORITHM ==>
                    && (r == Refused(BadSalt) <==> !decoded.0)
                    && (r == Refused(BadNonce) <==> decoded.0 && !decoded.1)
                    && (r == Refused(BadCipher) <==> decoded.0 && decoded.1 && !decoded.2))
    ensures DecryptLine(c, passphrase, line) == Refused(OpenFailed) <==>
            exists e, salt, nonce, cipher ::
              && c.unmarshal(line) == Some(e) && e.version == VERSION && e.algorithm == ALGORITHM
              && c.decode(e.salt) == Some(salt) && c.decode(e.nonce) == Some(nonce)
              && c.decode(e.cipher) == Some(cipher)
              && |nonce| == NONCE_SIZE && c.open(c.derive(passphrase, salt), nonce, cipher, ASSOCIATED).None?
  {
  }

  predicate Passes(c: Crypto, passphrase: string, line: string) {
    line == "" || DecryptLine(c, passphrase, line).Opened?
  }

  /** Line `k` is the first that does not pass. */
  predicate FirstBad(c: Crypto, passphrase: string, lines: seq<string>, k: nat)
    requires k < |lines|
  {
    !Passes(c, passphrase, lines[k]) && forall j :: 0 <= j < k ==> Passes(c, passphrase, lines[j])
  }

  /** A run ends at the first line that does not pass, in the way of that line. */
  lemma {:induction false} EndsAtFirstBad(c: Crypto, passphrase: string, lines: seq<string>)
    ensures var ending := DecryptLines(c, passphrase, lines).1;
            match ending
            case Finished => forall j :: 0 <= j < |lines| ==> Passes(c, passphrase, lines[j])
            case Stopped(line, f) =>
              0 < line <= |lines| && FirstBad(c, passphrase, lines, line - 1)
              && DecryptLine(c, passphrase, lines[line - 1]) == Refused(f)
            case Crashed(line) =>
              0 < line <= |lines| && FirstBad(c, passphrase, lines, line - 1)
              && DecryptLine(c, passphrase, lines[line - 1]).Panicked?
  {
    if lines != [] {
      EndsAtFirstBad(c, passphrase, lines[..|lines| - 1]);
    }
  }

  /** A file crashes the run at a line exactly when only the nonce of that line has the wrong size and every
      earlier non-empty line opens. Without such a line the run finishes or stops with a numbered error. */
  lemma {:induction false} CrashesIff(c: Crypto, passphrase: string, lines: seq<string>, k: nat)
    requires k < |lines|
    ensures DecryptLines(c, passphrase, lines).1 == Crashed(k + 1)
            <==> lines[k] != "" && WrongNonceSize(c, lines[k])
                 && forall j :: 0 <= j < k ==> lines[j] == "" || DecryptLine(c, passphrase, lines[j]).Opened?
  {
    EndsAtFirstBad(c, passphrase, lines);
    PanicsIff(c, passphrase, lines[k]);
    if lines[k] != "" && WrongNonceSize(c, lines[k])
       && forall j :: 0 <= j < k ==> lines[j] == "" || DecryptLine(c, passphrase, lines[j]).Opened?
    {
      forall j | 0 <= j < k ensures Passes(c, passphrase, lines[j]) {
      }
      assert FirstBad(c, passphrase, lines, k);
    }
  }

  /** What the output must be: the plaintext of each non-empty line, each with a newline. */
  ghost predicate IsOutput(c: Crypto, passphrase: string, lines: seq<string>, out: string)
    decreases |lines|
  {
    if lines == [] then out == ""
    else
      var k := |lines| - 1;
      if lines[k] == "" then IsOutput(c, passphrase, lines[..k], out)
      else
        exists before, e, plaintext ::
          && c.unmarshal(lines[k]) == Some(e) && Holds(c, passphrase, e, plaintext)
          && out == before + plaintext + "\n" && IsOutput(c, passphrase, lines[..k], before)
  }

  ghost predicate InOrder(c: Crypto, passphrase: string, line: string) {
    line == "" || exists e, plaintext :: c.unmarshal(line) == Some(e) && Holds(c, passphrase, e, plaintext)
  }

  /** A run finishes exactly when every non-empty line is an entry in order; and then its output is exactly their
      plaintexts. */
  lemma {:induction false} FinishesIff(c: Crypto, passphrase: string, lines: seq<string>)
    ensures var (out, ending) := DecryptLines(c, passphrase, lines);
            && (ending.Finished? <==> forall j :: 0 <= j < |lines| ==> InOrder(c, passphrase, lines[j]))
            && (ending.Finished? ==> IsOutput(c, passphrase, lines, out))
  {
    if lines != [] {
      FinishesIff(c, passphrase, lines[..|lines| - 1]);
      forall plaintext {
        OpensIff(c, passphrase, lines[|lines| - 1], plaintext);
      }
    }
  }

  // ----- the whole log comes back

  /** One logged event: by a logger with this salt, under this nonce. */
  datatype Record = Record(salt: string, nonce: string, plaintext: string)

  function LineOf(c: Crypto, passphrase: string, r: Record): string {
    SealedLine(c, c.derive(passphrase, r.salt), r.salt, r.nonce, r.plaintext)
  }

  function LinesOf(c: Crypto, passphrase: string, records: seq<Record>): seq<string> {
    seq(|records|, i requires 0 <= i < |records| => LineOf(c, passphrase, records[i]))
  }

  function PlaintextsOf(records: seq<Record>): seq<string> {
    seq(|records|, i requires 0 <= i < |records| => records[i].plaintext)
  }

  lemma {:induction false} LineComesBack(c: Crypto, passphrase: string, r: Record)
    requires Ideal(c)
    ensures DecryptLine(c, passphrase, LineOf(c, passphrase, r))
            == if |r.nonce| == NONCE_SIZE then Opened(r.plaintext) else Panicked
    ensures LineOf(c, passphrase, r) != "" && '\n' !in LineOf(c, passphrase, r)
  {
    var cipher := c.seal(c.derive(passphrase, r.salt), r.nonce, r.plaintext, ASSOCIATED);
    assert OneLine(c, Written(c, r.salt, r.nonce, cipher));
  }

  /** A file that crashes the run: one line in order but for its empty nonce, with any ciphertext. */
  lemma {:induction false} EmptyNonceCrashes(c: Crypto, passphrase: string, cipher: string)
    requires Ideal(c)
    ensures DecryptLines(c, passphrase, Lines(c.marshal(Written(c, "", "", cipher)) + "\n")) == ("", Crashed(1))
  {
    var line := c.marshal(Written(c, "", "", cipher));
    assert OneLine(c, Written(c, "", "", cipher));
    LinesFirst(line, "");
    assert line + "\n" + "" == line + "\n" && [line] + [] == [line];
    assert [line][..0] == [];
  }

  /** What Log adds to a file is what one more record adds to the log. */
  lemma {:induction false} LogAppends(c: Crypto, passphrase: string, records: seq<Record>, r: Record)
    ensures Joined(LinesOf(c, passphrase, records + [r]))
            == Joined(LinesOf(c, passphrase, records)) + LineOf(c, passphrase, r) + "\n"
  {
    var lines := LinesOf(c, passphrase, records + [r]);
    assert lines[..|lines| - 1] == LinesOf(c, passphrase, records);
  }

  /** Whichever loggers wrote the lines, with whatever salts: decrypting with their passphrase gives
      exactly the plaintexts, in order, each followed by a newline. */
  lemma {:induction false} LogRoundTrip(c: Crypto, passphrase: string, records: seq<Record>)
    requires Ideal(c) && forall r :: r in records ==> |r.nonce| == NONCE_SIZE
    ensures DecryptLines(c, passphrase, Lines(Joined(LinesOf(c, passphrase, records))))
            == (Joined(PlaintextsOf(records)), Finished)
  {
    var lines := LinesOf(c, passphrase, records);
    forall l | l in lines ensures '\n' !in l {
      var i :| 0 <= i < |records| && lines[i] == l;
      assert records[i] in records;
      LineComesBack(c, passphrase, records[i]);
    }
    LinesJoined(lines);
    DecryptInOrder(c, passphrase, records);
  }

  lemma {:induction false} DecryptInOrder(c: Crypto, passphrase: string, records: seq<Record>)
    requires Ideal(c) && forall r :: r in records ==> |r.nonce| == NONCE_SIZE
    ensures DecryptLines(c, passphrase, LinesOf(c, passphrase, records)) == (Joined(PlaintextsOf(records)), Finished)
  {
    if records != [] {
      var k := |records| - 1;
      assert records[k] in records && forall r :: r in records[..k] ==> r in records;
      DecryptInOrder(c, passphrase, records[..k]);
      assert LinesOf(c, passphrase, records)[..k] == LinesOf(c, passphrase, records[..k]);
      assert PlaintextsOf(records)[..k] == PlaintextsOf(records[..k]);
      LineComesBack(c, passphrase, records[k]);
    }
  }
}
