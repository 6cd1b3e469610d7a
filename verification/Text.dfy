/** Text primitives of the Go standard library that the fleet's names and addresses
    are built from: splitting on a separator, joining, decimal numerals. */
module Text {

  /** A uuid; NIL_ID is uuid.Nil. */
  type Id = nat
  const NIL_ID: Id := 0

  datatype Option<+T> = None | Some(value: T)

  datatype Result<+T, +E> = Ok(value: T) | Err(error: E)

  /** strings.Split with a one-character separator: always at least one part. */
  function Split(s: string, sep: char): (parts: seq<string>)
    ensures |parts| >= 1
    ensures forall i :: 0 <= i < |parts| ==> sep !in parts[i]
  {
    if s == "" then [""]
    else
      var rest := Split(s[1..], sep);
      if s[0] == sep then [""] + rest
      else [[s[0]] + rest[0]] + rest[1..]
  }

  function Join(parts: seq<string>, sep: char): string
    requires |parts| >= 1
  {
    if |parts| == 1 then parts[0] else parts[0] + [sep] + Join(parts[1..], sep)
  }

  /** Splitting loses nothing: joining the parts restores the text. */
  lemma {:induction false} JoinSplit(s: string, sep: char)
    ensures Join(Split(s, sep), sep) == s
  {
    if s != "" {
      var rest := Split(s[1..], sep);
      JoinSplit(s[1..], sep);
      assert s == [s[0]] + s[1..];
      if s[0] == sep {
        assert ([""] + rest)[1..] == rest;
      } else {
        var parts := [[s[0]] + rest[0]] + rest[1..];
        assert parts[1..] == rest[1..];
        assert |rest| > 1 ==> Join(parts, sep) == [s[0]] + (rest[0] + [sep] + Join(rest[1..], sep));
      }
    }
  }

  lemma {:induction false} SplitWord(word: string, sep: char)
    requires sep !in word
    ensures Split(word, sep) == [word]
  {
    if word != "" {
      SplitWord(word[1..], sep);
      assert word == [word[0]] + word[1..];
    }
  }

  lemma {:induction false} SplitAtSeparator(word: string, sep: char, tail: string)
    requires sep !in word
    ensures Split(word + [sep] + tail, sep) == [word] + Split(tail, sep)
  {
    var s := word + [sep] + tail;
    if word == "" {
      assert s[1..] == tail;
    } else {
      SplitAtSeparator(word[1..], sep, tail);
      assert s[1..] == word[1..] + [sep] + tail;
      assert word == [word[0]] + word[1..];
    }
  }

  /** Joining separator-free parts is undone by splitting. */
  lemma {:induction false} SplitJoin(parts: seq<string>, sep: char)
    requires |parts| >= 1
    requires forall i :: 0 <= i < |parts| ==> sep !in parts[i]
    ensures Split(Join(parts, sep), sep) == parts
  {
    if |parts| == 1 {
      SplitWord(parts[0], sep);
    } else {
      SplitJoin(parts[1..], sep);
      SplitAtSeparator(parts[0], sep, Join(parts[1..], sep));
    }
  }

  /** unicode.IsSpace, as strings.TrimSpace uses it. */
  predicate IsSpace(c: char) {
    || '\t' <= c <= '\r' || c == ' ' || c == '\U{0085}' || c == '\U{00A0}' || c == '\U{1680}'
    || '\U{2000}' <= c <= '\U{200A}' || c == '\U{2028}' || c == '\U{2029}' || c == '\U{202F}'
    || c == '\U{205F}' || c == '\U{3000}'
  }

  predicate Blank(s: string) { forall i :: 0 <= i < |s| ==> IsSpace(s[i]) }

  /** strings.TrimSpace. */
  function TrimSpace(s: string): (out: string)
    ensures out != "" ==> !IsSpace(out[0]) && !IsSpace(out[|out| - 1])
    ensures out == "" <==> Blank(s)
  {
    if s == "" then ""
    else if IsSpace(s[0]) then TrimSpace(s[1..])
    else if IsSpace(s[|s| - 1]) then TrimSpace(s[..|s| - 1])
    else s
  }

  predicate IsDigit(c: char) { '0' <= c <= '9' }
  predicate IsLower(c: char) { 'a' <= c <= 'z' }

  predicate AllDigits(s: string) { forall i :: 0 <= i < |s| ==> IsDigit(s[i]) }
  predicate AllLower(s: string) { forall i :: 0 <= i < |s| ==> IsLower(s[i]) }

  function DigitChar(d: nat): (c: char)
    requires d < 10
    ensures IsDigit(c)
  {
    '0' + d as char
  }

  /** fmt's %d of a natural number. */
  function Dec(n: nat): (s: string)
    ensures |s| >= 1 && AllDigits(s)
    ensures if n == 0 then s == "0" else s[0] != '0'
  {
    if n < 10 then [DigitChar(n)]
    else Dec(n / 10) + [DigitChar(n % 10)]
  }

  function DecVal(s: string): nat
    requires AllDigits(s)
  {
    if s == "" then 0
    else DecVal(s[..|s| - 1]) * 10 + (s[|s| - 1] - '0') as nat
  }

  /** Reading back a printed number gives the number, so printing is injective. */
  lemma {:induction false} DecRoundTrip(n: nat)
    ensures DecVal(Dec(n)) == n
  {
    if n >= 10 {
      DecRoundTrip(n / 10);
      assert Dec(n)[..|Dec(n)| - 1] == Dec(n / 10);
    } else {
      assert [DigitChar(n)][..0] == "";
    }
  }

  lemma DecInjective(a: nat, b: nat)
    requires Dec(a) == Dec(b)
    ensures a == b
  {
    DecRoundTrip(a);
    DecRoundTrip(b);
  }

  /** Not about text: the one fact on set sizes the counting arguments share. */
  lemma SubsetSize<T>(a: set<T>, b: set<T>)
    requires a <= b
    ensures |a| <= |b| && |b - a| == |b| - |a|
  {
    assert b == a + (b - a);
  }
}
