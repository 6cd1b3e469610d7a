/** The readiness probe's side of the PostgreSQL protocol: the startup message it sends and the
    refusal it reads (internal/usecase/fleet_postgres_probe.go:35-61, 76-168; section 55.7 of the
    PostgreSQL 16 manual). */
module PgWire {
  import opened Text

  newtype byte = x: int | 0 <= x < 256

  type Bytes = seq<byte>

  const PROTOCOL_3: nat := 196608
  const WORD: nat := 0x1_0000_0000
  const ERROR_RESPONSE_MAX: int := 8192
  const HEADER: nat := 5

  const AUTHENTICATION: byte := 82
  const ERROR_RESPONSE: byte := 69
  const SEVERITY: byte := 83
  const SQLSTATE: byte := 67
  const MESSAGE: byte := 77

  const USER: Bytes := [117, 115, 101, 114]
  const DATABASE: Bytes := [100, 97, 116, 97, 98, 97, 115, 101]

  predicate NulFree(b: Bytes) { forall i :: 0 <= i < |b| ==> b[i] != 0 }

  // ---------------------------------------------------------------- words

  /** A 32-bit big-endian word; the conversion to uint32 keeps the low 32 bits. */
  function Word(n: nat): (out: Bytes)
    ensures |out| == 4
  {
    [(n / 0x1000000 % 256) as byte, (n / 0x10000 % 256) as byte, (n / 0x100 % 256) as byte, (n % 256) as byte]
  }

  function WordValue(b: Bytes): nat
    requires |b| == 4
  {
    b[0] as nat * 0x1000000 + b[1] as nat * 0x10000 + b[2] as nat * 0x100 + b[3] as nat
  }

  lemma WordRoundTrip(n: nat)
    ensures WordValue(Word(n)) == n % WORD
    ensures BigEndian(Word(n)) == n % 0x1_0000_0000
  {
    var (a, b, c, d) := (n / 0x1000000, n / 0x10000, n / 0x100, n);
    assert b / 256 == a && c / 256 == b && d / 256 == c;
    assert d == 256 * c + d % 256 && c == 256 * b + c % 256 && b == 256 * a + b % 256 && a == 256 * (a / 256) + a % 256;
    var low := a % 256 * 0x1000000 + b % 256 * 0x10000 + c % 256 * 0x100 + d % 256;
    assert n == a / 256 * WORD + low && 0 <= low < WORD;
    Remainder(n, a / 256, low);
  }

  /** Most significant byte first. */
  ghost function BigEndian(b: Bytes): nat
    requires |b| == 4
  {
    ((b[0] as nat * 256 + b[1] as nat) * 256 + b[2] as nat) * 256 + b[3] as nat
  }

  lemma Remainder(n: nat, q: nat, r: nat)
    requires n == q * WORD + r && r < WORD
    ensures n % WORD == r
  {}

  // ---------------------------------------------------------------- the startup message

  function Param(key: Bytes, value: Bytes): Bytes { key + [0] + value + [0] }

  function Params(user: Bytes, database: Bytes): Bytes { Param(USER, user) + Param(DATABASE, database) + [0] }

  function Startup(user: Bytes, database: Bytes): Bytes {
    Word(8 + |Params(user, database)|) + Word(PROTOCOL_3) + Params(user, database)
  }

  method PutUint32(buf: array<byte>, at: nat, v: nat)
    requires at + 4 <= buf.Length
    modifies buf
    ensures buf[at..at + 4] == Word(v)
    ensures forall i :: (0 <= i < at || at + 4 <= i < buf.Length) ==> buf[i] == old(buf[i])
  {
    var w := Word(v);
    buf[at] := w[0];
    buf[at + 1] := w[1];
    buf[at + 2] := w[2];
    buf[at + 3] := w[3];
  }

  /** pgStartupMessage: the parameters appended to a buffer, the header written in place. */
  method StartupMessage(user: Bytes, database: Bytes) returns (msg: Bytes)
    ensures msg == Startup(user, database)
  {
    hide Word;
    hide Params;
    var params: Bytes := [];
    params := params + USER + [0] + user + [0];
    params := params + DATABASE + [0] + database + [0];
    params := params + [0];
    SameParams(user, database, params);
    msg := WithHeader(params);
  }

  method WithHeader(params: Bytes) returns (msg: Bytes)
    ensures msg == Word(8 + |params|) + Word(PROTOCOL_3) + params
  {
    hide Word;
    var header := new byte[8](_ => 0);
    PutUint32(header, 0, 8 + |params|);
    assert header[0..4] == Word(8 + |params|);
    ghost var first := header[0..4];
    PutUint32(header, 4, PROTOCOL_3);
    assert header[0..4] == first && header[..] == header[0..4] + header[4..8];
    return header[..] + params;
  }

  lemma SameParams(user: Bytes, database: Bytes, params: Bytes)
    requires params == [] + USER + [0] + user + [0] + DATABASE + [0] + database + [0] + [0]
    ensures params == Params(user, database)
  {
    var p := Param(USER, user);
    assert [] + USER + [0] + user + [0] == p;
    assert p + DATABASE + [0] + database + [0] == p + Param(DATABASE, database);
  }

  // ---------------------------------------------------------------- reading NUL-terminated values

  /** bytes.IndexByte(_, 0). */
  function IndexNul(b: Bytes): (r: Option<nat>)
    ensures r.None? <==> NulFree(b)
    ensures r.Some? ==> r.value < |b| && b[r.value] == 0 && NulFree(b[..r.value])
  {
    if b == [] then None
    else if b[0] == 0 then Some(0)
    else
      var rest := IndexNul(b[1..]);
      assert b == [b[0]] + b[1..];
      if rest.None? then None
      else
        assert b[..rest.value + 1] == [b[0]] + b[1..][..rest.value];
        Some(rest.value + 1)
  }

  lemma {:induction false} FirstNul(b: Bytes, k: nat)
    requires k < |b| && b[k] == 0 && NulFree(b[..k])
    ensures IndexNul(b) == Some(k)
  {
    if k > 0 {
      assert b[0] == b[..k][0];
      assert b[1..][..k - 1] == b[..k][1..];
      FirstNul(b[1..], k - 1);
    }
  }

  lemma IndexOfValue(value: Bytes, rest: Bytes)
    requires NulFree(value)
    ensures IndexNul(value + [0] + rest) == Some(|value|)
    ensures (value + [0] + rest)[..|value|] == value && (value + [0] + rest)[|value| + 1..] == rest
  {
    var b := value + [0] + rest;
    assert b[..|value|] == value;
    FirstNul(b, |value|);
  }

  /** A server's reading of the parameter list: pairs up to the closing zero, nothing after it. */
  function ReadParams(b: Bytes): (out: Option<seq<(Bytes, Bytes)>>)
    ensures out.Some? ==> forall i :: 0 <= i < |out.value| ==> NulFree(out.value[i].0) && NulFree(out.value[i].1)
    decreases |b|
  {
    if b == [] then None
    else if b[0] == 0 then (if |b| == 1 then Some([]) else None)
    else
      var k := IndexNul(b);
      if k.None? then None
      else
        var tail := b[k.value + 1..];
        var v := IndexNul(tail);
        if v.None? then None
        else
          var more := ReadParams(tail[v.value + 1..]);
          if more.None? then None else Some([(b[..k.value], tail[..v.value])] + more.value)
  }

  function ReadStartup(msg: Bytes): Option<seq<(Bytes, Bytes)>> {
    if |msg| < 8 || WordValue(msg[..4]) != |msg| || WordValue(msg[4..8]) != PROTOCOL_3 then None
    else ReadParams(msg[8..])
  }

  lemma ReadOneParam(key: Bytes, value: Bytes, rest: Bytes)
    requires key != [] && NulFree(key) && NulFree(value)
    ensures ReadParams(Param(key, value) + rest)
            == if ReadParams(rest).None? then None else Some([(key, value)] + ReadParams(rest).value)
  {
    hide IndexNul;
    var b := Param(key, value) + rest;
    var tail := value + [0] + rest;
    assert b == key + [0] + tail;
    IndexOfValue(key, tail);
    IndexOfValue(value, rest);
    assert b[0] == key[0] && b[0] != 0;
    assert IndexNul(b) == Some(|key|) && b[..|key|] == key && b[|key| + 1..] == tail;
    assert IndexNul(tail) == Some(|value|) && tail[..|value|] == value && tail[|value| + 1..] == rest;
    var more := ReadParams(tail[|value| + 1..]);
    assert ReadParams(b) == if more.None? then None else Some([(b[..|key|], tail[..|value|])] + more.value);
  }

  lemma ParamsRoundTrip(user: Bytes, database: Bytes)
    requires NulFree(user) && NulFree(database)
    ensures ReadParams(Params(user, database)) == Some([(USER, user), (DATABASE, database)])
  {
    hide ReadParams;
    assert ReadParams([0]) == Some([]) by { ReadEnd(); }
    ReadOneParam(DATABASE, database, [0]);
    ReadOneParam(USER, user, Param(DATABASE, database) + [0]);
    assert Params(user, database) == Param(USER, user) + (Param(DATABASE, database) + [0]);
    assert [(USER, user)] + ([(DATABASE, database)] + []) == [(USER, user), (DATABASE, database)];
  }

  lemma ReadEnd()
    ensures ReadParams([0]) == Some([])
  {}

  /** The length prefix is the message's size exactly while that size fits in 32 bits. */
  lemma PrefixIsSizeIff(user: Bytes, database: Bytes)
    ensures var msg := Startup(user, database);
            && |msg| == |user| + |database| + 25
            && (BigEndian(msg[..4]) == |msg| <==> |msg| < 0x1_0000_0000)
            && WordValue(msg[..4]) == BigEndian(msg[..4])
            && WordValue(msg[4..8]) == BigEndian(msg[4..8]) == 0x3_0000 && msg[8..] == Params(user, database)
  {
    hide Word;
    hide WordValue;
    hide BigEndian;
    var msg := Startup(user, database);
    assert msg[..4] == Word(8 + |Params(user, database)|) && msg[4..8] == Word(PROTOCOL_3);
    WordRoundTrip(8 + |Params(user, database)|);
    WordRoundTrip(PROTOCOL_3);
  }

  /** A server recovers user and database from the message exactly when neither contains a NUL and
      the message fits its length prefix. */
  lemma StartupRoundTripIff(user: Bytes, database: Bytes)
    ensures ReadStartup(Startup(user, database))
            == Some([([117, 115, 101, 114], user), ([100, 97, 116, 97, 98, 97, 115, 101], database)])
            <==> NulFree(user) && NulFree(database) && |user| + |database| + 25 < 0x1_0000_0000
  {
    hide Startup;
    hide ReadParams;
    hide WordValue;
    PrefixIsSizeIff(user, database);
    if NulFree(user) && NulFree(database) {
      ParamsRoundTrip(user, database);
    }
    if ReadParams(Params(user, database)) == Some([(USER, user), (DATABASE, database)]) {
      ReadValuesNulFree(Params(user, database), user, database);
    }
  }

  lemma ReadValuesNulFree(b: Bytes, user: Bytes, database: Bytes)
    requires ReadParams(b) == Some([(USER, user), (DATABASE, database)])
    ensures NulFree(user) && NulFree(database)
  {
    var out := ReadParams(b).value;
    assert NulFree(out[0].1) && NulFree(out[1].1);
  }

  // ---------------------------------------------------------------- the error response

  datatype Field = Field(code: byte, value: Bytes)

  ghost predicate WellFormed(fs: seq<Field>) { forall i :: 0 <= i < |fs| ==> fs[i].code != 0 && NulFree(fs[i].value) }

  function EncodeField(f: Field): Bytes { [f.code] + (f.value + [0]) }

  function Encode(fs: seq<Field>): Bytes {
    if fs == [] then [] else EncodeField(fs[0]) + Encode(fs[1..])
  }

  /** The value of the last field with this code, or the empty value. */
  function Last(fs: seq<Field>, code: byte): Bytes {
    if fs == [] then []
    else if fs[|fs| - 1].code == code then fs[|fs| - 1].value
    else Last(fs[..|fs| - 1], code)
  }

  /** The complete fields at the front of a body. */
  function FieldsOf(body: Bytes): seq<Field>
    decreases |body|
  {
    if body == [] || body[0] == 0 then []
    else
      var end := IndexNul(body[1..]);
      if end.None? then []
      else [Field(body[0], body[1..][..end.value])] + FieldsOf(body[1..][end.value + 1..])
  }

  /** What may follow the complete fields: nothing, the terminator and anything after it, or one
      field cut off before its own terminator. */
  predicate Tail(rest: Bytes) { rest == [] || rest[0] == 0 || NulFree(rest) }

  lemma FieldsStep(f: Field, tail: Bytes)
    requires f.code != 0 && NulFree(f.value)
    ensures FieldsOf(EncodeField(f) + tail) == [f] + FieldsOf(tail)
  {
    hide IndexNul;
    var body := EncodeField(f) + tail;
    assert body[1..] == f.value + [0] + tail;
    IndexOfValue(f.value, tail);
  }

  lemma NoFieldIn(rest: Bytes)
    requires Tail(rest)
    ensures FieldsOf(rest) == []
  {
    if rest != [] && rest[0] != 0 {
      assert NulFree(rest[1..]);
    }
  }

  /** Any well-formed field list followed by such a remainder parses to exactly that list. */
  lemma {:induction false} FieldsRoundTrip(fs: seq<Field>, rest: Bytes)
    requires WellFormed(fs) && Tail(rest)
    ensures FieldsOf(Encode(fs) + rest) == fs
  {
    hide FieldsOf;
    hide Tail;
    hide EncodeField;
    if fs == [] {
      assert Encode(fs) + rest == rest;
      NoFieldIn(rest);
    } else {
      FieldsRoundTrip(fs[1..], rest);
      FieldsStep(fs[0], Encode(fs[1..]) + rest);
      assert Encode(fs) + rest == EncodeField(fs[0]) + (Encode(fs[1..]) + rest);
      assert fs == [fs[0]] + fs[1..];
    }
  }

  lemma EncodeCons(f: Field, fs: seq<Field>)
    ensures Encode([f] + fs) == EncodeField(f) + Encode(fs)
  {
    assert ([f] + fs)[1..] == fs;
  }

  /** And every body is of that form, so the parser is right about every body there is. */
  lemma {:induction false} EveryBodyDecomposes(body: Bytes) returns (rest: Bytes)
    ensures WellFormed(FieldsOf(body)) && Tail(rest) && body == Encode(FieldsOf(body)) + rest
    decreases |body|
  {
    hide IndexNul;
    hide Encode;
    hide EncodeField;
    hide FieldsOf;
    hide Tail;
    hide WellFormed;
    hide NulFree;
    if body == [] || body[0] == 0 || IndexNul(body[1..]).None? {
      LastTail(body);
      return body;
    }
    FieldsUnfold(body);
    var end := IndexNul(body[1..]).value;
    var f, tail := Field(body[0], body[1..][..end]), body[1..][end + 1..];
    rest := EveryBodyDecomposes(tail);
    EncodeCons(f, FieldsOf(tail));
    Reassemble(body, end);
    OneMoreField(f, FieldsOf(tail));
    assert EncodeField(f) + (Encode(FieldsOf(tail)) + rest) == EncodeField(f) + Encode(FieldsOf(tail)) + rest;
  }

  lemma LastTail(body: Bytes)
    requires body == [] || body[0] == 0 || IndexNul(body[1..]).None?
    ensures Tail(body) && WellFormed(FieldsOf(body)) && body == Encode(FieldsOf(body)) + body
  {
    hide IndexNul;
    hide FieldsOf;
    assert body != [] ==> body == [body[0]] + body[1..];
    assert Tail(body);
    NoFieldIn(body);
    EncodeNone();
    assert [] + body == body;
  }

  lemma OneMoreField(f: Field, fs: seq<Field>)
    requires f.code != 0 && NulFree(f.value) && WellFormed(fs)
    ensures WellFormed([f] + fs)
  {
    hide NulFree;
  }

  lemma Reassemble(body: Bytes, end: nat)
    requires body != [] && end < |body| - 1 && body[1..][end] == 0
    ensures body == EncodeField(Field(body[0], body[1..][..end])) + body[1..][end + 1..]
  {
    var t := body[1..];
    assert t == t[..end] + [0] + t[end + 1..];
    assert body == [body[0]] + t;
  }

  lemma EncodeNone()
    ensures Encode([]) == []
  {}

  /** How many of the fields lie wholly within the first k bytes. */
  function Complete(fs: seq<Field>, k: nat): (m: nat)
    ensures m <= |fs|
  {
    if fs == [] || k < |EncodeField(fs[0])| then 0 else 1 + Complete(fs[1..], k - |EncodeField(fs[0])|)
  }

  /** Cut a body anywhere: the parser returns the fields of the complete prefix. */
  lemma {:induction false} TruncationKeepsCompleteFields(fs: seq<Field>, k: nat)
    requires WellFormed(fs) && k <= |Encode(fs)|
    ensures FieldsOf(Encode(fs)[..k]) == fs[..Complete(fs, k)]
    decreases |fs|
  {
    hide FieldsOf;
    var cut := Encode(fs)[..k];
    if fs == [] || k == 0 {
      assert cut == [];
      NoFieldIn(cut);
    } else {
      var head := EncodeField(fs[0]);
      if k < |head| {
        assert cut == head[..k] && NulFree(cut);
        NoFieldIn(cut);
      } else {
        var rest := Encode(fs[1..])[..k - |head|];
        assert cut == head + rest;
        FieldsStep(fs[0], rest);
        TruncationKeepsCompleteFields(fs[1..], k - |head|);
        assert fs[..Complete(fs, k)] == [fs[0]] + fs[1..][..Complete(fs[1..], k - |head|)];
      }
    }
  }

  /** It is the value of some field with the code after which none has it, or empty when none has it. */
  lemma {:induction false} LastExact(fs: seq<Field>, code: byte)
    ensures (exists i :: 0 <= i < |fs| && fs[i].code == code) ==>
              exists i :: 0 <= i < |fs| && fs[i].code == code && Last(fs, code) == fs[i].value
                          && forall j :: i < j < |fs| ==> fs[j].code != code
    ensures (forall i :: 0 <= i < |fs| ==> fs[i].code != code) ==> Last(fs, code) == []
  {
    if fs != [] {
      var k := |fs| - 1;
      LastExact(fs[..k], code);
      if fs[k].code == code {
        assert Last(fs, code) == fs[k].value;
      } else {
        assert forall i :: 0 <= i < k ==> fs[..k][i] == fs[i];
      }
    }
  }

  lemma LastSnoc(fs: seq<Field>, f: Field, code: byte)
    ensures Last(fs + [f], code) == if f.code == code then f.value else Last(fs, code)
  {
    assert (fs + [f])[..|fs|] == fs;
  }

  /** The parser's loop: it consumes the body and always stops. */
  method ParseErrorBody(whole: Bytes) returns (severity: Bytes, sqlstate: Bytes, message: Bytes)
    ensures severity == Last(FieldsOf(whole), 'S' as int as byte)
    ensures sqlstate == Last(FieldsOf(whole), 'C' as int as byte)
    ensures message == Last(FieldsOf(whole), 'M' as int as byte)
  {
    hide Last;
    hide FieldsOf;
    hide IndexNul;
    severity, sqlstate, message := [], [], [];
    var body := whole;
    ghost var done: seq<Field> := [];
    NoFields();
    while |body| > 0 && body[0] != 0
      invariant FieldsOf(whole) == done + FieldsOf(body)
      invariant severity == Last(done, SEVERITY) && sqlstate == Last(done, SQLSTATE) && message == Last(done, MESSAGE)
      decreases |body|
    {
      var code := body[0];
      FieldsUnfold(body);
      body := body[1..];
      var end := IndexNul(body);
      assert done + [] == done;
      if end.None? { return; }
      var value := body[..end.value];
      body := body[end.value + 1..];
      if code == SEVERITY {
        severity := value;
      } else if code == SQLSTATE {
        sqlstate := value;
      } else if code == MESSAGE {
        message := value;
      }
      ghost var f := Field(code, value);
      LastSnoc(done, f, SEVERITY);
      LastSnoc(done, f, SQLSTATE);
      LastSnoc(done, f, MESSAGE);
      done := done + [f];
    }
    NoFieldIn(body);
    assert done + [] == done;
  }

  lemma FieldsUnfold(body: Bytes)
    requires body != [] && body[0] != 0
    ensures var end := IndexNul(body[1..]);
            FieldsOf(body) == if end.None? then []
                              else [Field(body[0], body[1..][..end.value])] + FieldsOf(body[1..][end.value + 1..])
  {}

  lemma NoFields()
    ensures forall code :: Last([], code) == []
  {}

  // ---------------------------------------------------------------- the verdict

  datatype Verdict =
    | Admitted
    | Refused(severity: Bytes, sqlstate: Bytes, message: Bytes)
    | ImplausibleLength | Unreadable | UnexpectedType

  ghost function Reading(stream: Bytes): Verdict {
    if |stream| < HEADER then Unreadable
    else if stream[0] == AUTHENTICATION then Admitted
    else if stream[0] != ERROR_RESPONSE then UnexpectedType
    else
      var bodyLen := WordValue(stream[1..5]) - 4;
      if bodyLen < 0 || bodyLen > ERROR_RESPONSE_MAX then ImplausibleLength
      else if |stream| < HEADER + bodyLen then Unreadable
      else
        var fs := FieldsOf(stream[HEADER..HEADER + bodyLen]);
        Refused(Last(fs, SEVERITY), Last(fs, SQLSTATE), Last(fs, MESSAGE))
  }

  /** The probe's reading of what the server sent before the deadline or the end of the stream. */
  method ReadResponse(stream: Bytes) returns (v: Verdict)
    ensures v == Reading(stream)
  {
    hide FieldsOf;
    hide Last;
    if |stream| < HEADER { return Unreadable; }
    var bodyLen := WordValue(stream[1..5]) - 4;
    if stream[0] == AUTHENTICATION { return Admitted; }
    if stream[0] != ERROR_RESPONSE { return UnexpectedType; }
    if bodyLen < 0 || bodyLen > ERROR_RESPONSE_MAX { return ImplausibleLength; }
    if |stream| < HEADER + bodyLen { return Unreadable; }
    var severity, sqlstate, message := ParseErrorBody(stream[HEADER..HEADER + bodyLen]);
    return Refused(severity, sqlstate, message);
  }

  /** An ErrorResponse as a server writes it. */
  function ErrorMessage(fs: seq<Field>): Bytes {
    var body := Encode(fs) + [0];
    [ERROR_RESPONSE] + Word(4 + |body|) + body
  }

  /** A whole ErrorResponse is read as its last severity, SQLSTATE and message exactly when its body
      is at most 8192 bytes, whatever follows it on the stream; a longer one is implausible. */
  lemma RefusalIsRead(fs: seq<Field>, after: Bytes)
    requires WellFormed(fs) && |Encode(fs)| + 5 < WORD
    ensures ErrorMessage(fs)[0] == 'E' as int as byte
    ensures Reading(ErrorMessage(fs) + after)
            == if |Encode(fs)| + 1 <= 8192
               then Refused(Last(fs, 'S' as int as byte), Last(fs, 'C' as int as byte), Last(fs, 'M' as int as byte))
               else ImplausibleLength
  {
    hide Word;
    hide WordValue;
    hide FieldsOf;
    hide Last;
    var body := Encode(fs) + [0];
    var stream := ErrorMessage(fs) + after;
    assert stream[1..5] == Word(4 + |body|);
    WordRoundTrip(4 + |body|);
    assert stream[HEADER..HEADER + |body|] == body;
    FieldsRoundTrip(fs, [0]);
  }

  /** Fail-closed: the probe admits exactly on a complete header of type R, whatever its length field
      and whatever follows. */
  lemma AdmitsIff(stream: Bytes)
    ensures Reading(stream) == Admitted <==> |stream| >= 5 && stream[0] == 'R' as int as byte
    ensures Reading(stream) == UnexpectedType <==>
              |stream| >= 5 && stream[0] != 'R' as int as byte && stream[0] != 'E' as int as byte
  {
    hide FieldsOf;
    hide Last;
  }

  lemma WordIsBigEndian(b: Bytes)
    requires |b| == 4
    ensures WordValue(b) == BigEndian(b)
  {}

  /** The other readings: too short for the header or for the announced body is unreadable; a body length
      below zero or over 8192 is implausible, whatever has arrived; and only a whole body is a refusal. */
  lemma RefusalsExact(stream: Bytes)
    ensures var error := |stream| >= 5 && stream[0] == 'E' as int as byte;
            var length := if error then BigEndian(stream[1..5]) else 0;
            && (Reading(stream) == ImplausibleLength <==> error && !(4 <= length <= 8196))
            && (Reading(stream) == Unreadable <==> |stream| < 5 || (error && 4 <= length <= 8196 && |stream| < 1 + length))
            && (Reading(stream).Refused? <==> error && 4 <= length <= 8196 && |stream| >= 1 + length)
  {
    hide FieldsOf;
    hide Last;
    hide WordValue;
    hide BigEndian;
    if |stream| >= 5 {
      WordIsBigEndian(stream[1..5]);
    }
  }
}
