/** The platform-issued hostname of an app: slugs, and the first label held inside the DNS limit
    (internal/usecase/fleet_orchestrator.go:183-256; section 2.3.4 of RFC 1035). */
module HostNames {
  import opened Text

  const DNS_LABEL_MAX: nat := 63
  const HASH_LEN: nat := 8

  predicate Alnum(c: char) { IsLower(c) || IsDigit(c) }

  /** unicode.ToLower, as far as it can produce a slug character: besides the ASCII capitals, the
      dotted capital I and the Kelvin sign fold to ASCII letters. */
  function ToLower(c: char): char {
    if 'A' <= c <= 'Z' then c - 'A' + 'a'
    else if c == '\U{0130}' then 'i'
    else if c == '\U{212A}' then 'k'
    else c
  }

  // ---------------------------------------------------------------- what a slug is

  /** Every character outside [a-z0-9] separates. */
  function Mask(s: string): (out: string)
    ensures |out| == |s|
    ensures forall i :: 0 <= i < |s| ==> out[i] == if Alnum(ToLower(s[i])) then ToLower(s[i]) else '-'
  {
    seq(|s|, i requires 0 <= i < |s| => if Alnum(ToLower(s[i])) then ToLower(s[i]) else '-')
  }

  function NonEmpty(parts: seq<string>): (out: seq<string>)
    ensures forall i :: 0 <= i < |out| ==> out[i] != "" && out[i] in parts
  {
    if parts == [] then []
    else
      var k := |parts| - 1;
      NonEmpty(parts[..k]) + if parts[k] == "" then [] else [parts[k]]
  }

  /** The maximal runs of slug characters, in order. */
  function Words(s: string): seq<string> { NonEmpty(Split(Mask(s), '-')) }

  function JoinWords(words: seq<string>): string { if words == [] then "" else Join(words, '-') }

  // ---------------------------------------------------------------- the buffer

  function Push(buf: string, c: char): string {
    if Alnum(c) then buf + [c]
    else if buf != "" && buf[|buf| - 1] != '-' then buf + "-"
    else buf
  }

  /** The buffer after the loop has read this much. */
  function Buffer(s: string): string {
    if s == "" then "" else Push(Buffer(s[..|s| - 1]), ToLower(s[|s| - 1]))
  }

  /** strings.Trim(_, "-"). */
  function TrimDashes(s: string): string {
    if s == "" then ""
    else if s[0] == '-' then TrimDashes(s[1..])
    else TrimRight(s)
  }

  /** strings.TrimRight(_, "-"). */
  function TrimRight(s: string): string {
    if s != "" && s[|s| - 1] == '-' then TrimRight(s[..|s| - 1]) else s
  }

  /** What a character in front, or at the end, of a text does to its parts. */
  ghost function Before(parts: seq<string>, sep: char, c: char): (out: seq<string>)
    requires |parts| >= 1
    ensures |out| >= 1
  {
    if c == sep then [""] + parts else [[c] + parts[0]] + parts[1..]
  }

  ghost function Behind(parts: seq<string>, sep: char, c: char): (out: seq<string>)
    requires |parts| >= 1
    ensures |out| >= 1
  {
    if c == sep then parts + [""] else parts[..|parts| - 1] + [parts[|parts| - 1] + [c]]
  }

  lemma SplitCons(s: string, sep: char, c: char)
    ensures Split([c] + s, sep) == Before(Split(s, sep), sep, c)
  {
    assert ([c] + s)[1..] == s;
  }

  lemma {:induction false} SplitSnoc(s: string, sep: char, c: char)
    ensures Split(s + [c], sep) == Behind(Split(s, sep), sep, c)
  {
    if s == "" {
      SplitCons(s, sep, c);
      assert s + [c] == [c] + s && [c] + "" == [c] && Split(s, sep) == [""];
    } else {
      hide Split;
      hide Before;
      hide Behind;
      var (tail, h) := (s[1..], s[0]);
      SplitSnoc(tail, sep, c);
      assert s == [h] + tail && s + [c] == [h] + (tail + [c]);
      SplitCons(tail, sep, h);
      SplitCons(tail + [c], sep, h);
      EndsCommute(Split(tail, sep), sep, h, c);
    }
  }

  lemma EndsCommute(parts: seq<string>, sep: char, h: char, c: char)
    requires |parts| >= 1
    ensures Before(Behind(parts, sep, c), sep, h) == Behind(Before(parts, sep, h), sep, c)
  {
    if h == sep {
      SeparatorFirst(parts, sep, c);
    } else if c == sep {
      assert (parts + [""])[0] == parts[0] && (parts + [""])[1..] == parts[1..] + [""];
    } else {
      LettersAround(parts, sep, h, c);
    }
  }

  lemma SeparatorFirst(parts: seq<string>, sep: char, c: char)
    requires |parts| >= 1
    ensures Before(Behind(parts, sep, c), sep, sep) == Behind(Before(parts, sep, sep), sep, c)
  {
    var k := |parts| - 1;
    assert ([""] + parts)[..k + 1] == [""] + parts[..k] && ([""] + parts)[k + 1] == parts[k];
    assert [""] + (parts[..k] + [parts[k] + [c]]) == [""] + parts[..k] + [parts[k] + [c]];
    assert [""] + (parts + [""]) == [""] + parts + [""];
  }

  lemma LettersAround(parts: seq<string>, sep: char, h: char, c: char)
    requires |parts| >= 1 && h != sep && c != sep
    ensures Before(Behind(parts, sep, c), sep, h) == Behind(Before(parts, sep, h), sep, c)
  {
    var (k, first, last) := (|parts| - 1, parts[0], parts[|parts| - 1]);
    if k == 0 {
      assert Behind(parts, sep, c) == [first + [c]] && Before(parts, sep, h) == [[h] + first];
      assert [h] + (first + [c]) == [h] + first + [c];
    } else {
      var inner := parts[1..k];
      assert Behind(parts, sep, c) == [first] + inner + [last + [c]];
      assert Before(parts, sep, h) == [[h] + first] + inner + [last];
    }
  }

  lemma {:induction false} JoinSnoc(words: seq<string>, w: string)
    requires words != []
    ensures Join(words + [w], '-') == Join(words, '-') + "-" + w
  {
    if |words| > 1 {
      JoinSnoc(words[1..], w);
      assert (words + [w])[1..] == words[1..] + [w];
    } else {
      assert (words + [w])[1..] == [w];
    }
  }

  /** Finished words and the run still open. */
  ghost function Pending(done: seq<string>, cur: string): string {
    if done == [] then cur else Join(done, '-') + "-" + cur
  }

  ghost function Done(s: string): seq<string> {
    var parts := Split(Mask(s), '-');
    NonEmpty(parts[..|parts| - 1])
  }

  ghost function Cur(s: string): string {
    var parts := Split(Mask(s), '-');
    parts[|parts| - 1]
  }

  lemma DashFree(s: string)
    ensures '-' !in Cur(s) && (forall i :: 0 <= i < |Done(s)| ==> '-' !in Done(s)[i] && Done(s)[i] != "")
    ensures Words(s) == if Cur(s) == "" then Done(s) else Done(s) + [Cur(s)]
  {
    var parts := Split(Mask(s), '-');
    assert forall p :: p in parts[..|parts| - 1] ==> '-' !in p;
  }

  lemma MaskSnoc(s: string, c: char)
    ensures Mask(s + [c]) == Mask(s) + [if Alnum(ToLower(c)) then ToLower(c) else '-']
  {}

  /** One more character closes the open run, extends it, or is skipped. */
  lemma ScanStep(s: string, c: char)
    ensures var f := ToLower(c);
            && (Alnum(f) ==> Done(s + [c]) == Done(s) && Cur(s + [c]) == Cur(s) + [f])
            && (!Alnum(f) ==> Cur(s + [c]) == "" && Done(s + [c]) == Words(s))
  {
    MaskSnoc(s, c);
    var parts := Split(Mask(s), '-');
    var k := |parts| - 1;
    if Alnum(ToLower(c)) {
      SplitSnoc(Mask(s), '-', ToLower(c));
      assert (parts[..k] + [parts[k] + [ToLower(c)]])[..k] == parts[..k];
    } else {
      SplitSnoc(Mask(s), '-', '-');
      assert (parts + [""])[..k + 1] == parts;
    }
  }

  /** The buffer always holds the finished words and the open run. */
  lemma {:induction false} BufferIs(s: string)
    ensures Buffer(s) == Pending(Done(s), Cur(s))
  {
    hide Done;
    hide Cur;
    hide Words;
    hide ToLower;
    hide Push;
    hide Pending;
    hide Buffer;
    if s == "" {
      NothingRead();
    } else {
      var (rest, c) := (s[..|s| - 1], s[|s| - 1]);
      assert s == rest + [c];
      BufferIs(rest);
      DashFree(rest);
      ScanStep(rest, c);
      BufferSnoc(rest, c);
      PendingStep(Done(rest), Cur(rest), ToLower(c));
    }
  }

  lemma NothingRead()
    ensures Buffer("") == Pending(Done(""), Cur(""))
  {
    assert Mask("") == "";
    assert Split("", '-') == [""] && [""][..0] == [];
  }

  lemma BufferSnoc(s: string, c: char)
    ensures Buffer(s + [c]) == Push(Buffer(s), ToLower(c))
  {
    assert (s + [c])[..|s|] == s;
  }

  lemma PendingStep(done: seq<string>, cur: string, f: char)
    requires '-' !in cur
    ensures var more := if Alnum(f) || cur == "" then done else done + [cur];
            Push(Pending(done, cur), f) == Pending(more, if Alnum(f) then cur + [f] else "")
  {
    var buf := Pending(done, cur);
    if Alnum(f) {
      assert done != [] ==> Join(done, '-') + "-" + (cur + [f]) == Join(done, '-') + "-" + cur + [f];
    } else if cur == "" {
      assert done != [] ==> buf == Join(done, '-') + "-";
    } else {
      assert buf[|buf| - 1] == cur[|cur| - 1] && cur[|cur| - 1] in cur;
      if done != [] {
        JoinSnoc(done, cur);
      }
      assert Pending(done + [cur], "") == Join(done + [cur], '-') + "-";
    }
  }

  // ---------------------------------------------------------------- the slug

  ghost predicate SlugWords(words: seq<string>) {
    forall i :: 0 <= i < |words| ==> words[i] != "" && '-' !in words[i]
  }

  lemma {:induction false} JoinEdges(words: seq<string>)
    requires words != [] && SlugWords(words)
    ensures var j := Join(words, '-'); j != "" && j[0] != '-' && j[|j| - 1] != '-'
  {
    assert words[0][0] in words[0];
    if |words| > 1 {
      JoinEdges(words[1..]);
    } else {
      assert words[0][|words[0]| - 1] in words[0];
    }
  }

  lemma TrimPending(done: seq<string>, cur: string)
    requires SlugWords(done) && '-' !in cur
    ensures TrimDashes(Pending(done, cur)) == JoinWords(if cur == "" then done else done + [cur])
  {
    var words := if cur == "" then done else done + [cur];
    if done != [] {
      JoinEdges(done);
    }
    if words != [] {
      assert cur != "" ==> SlugWords(words);
      assert cur == "" ==> words == done;
      JoinEdges(words);
      if cur != "" && done != [] {
        JoinSnoc(done, cur);
      }
      assert done == [] ==> words == [cur] && Join(words, '-') == cur;
      var j := Join(words, '-');
      assert Pending(done, cur) == j || Pending(done, cur) == j + "-";
      assert TrimRight(j) == j;
      assert (j + "-")[..|j|] == j;
    }
  }

  /** Characters that only separate do not matter at either end. */
  lemma EdgeSeparator(s: string, c: char)
    requires !Alnum(ToLower(c))
    ensures Words(s + [c]) == Words(s) && Words([c] + s) == Words(s)
  {
    ScanStep(s, c);
    DashFree(s + [c]);
    assert Mask([c] + s) == ['-'] + Mask(s);
    assert (['-'] + Mask(s))[1..] == Mask(s);
    EmptyFirst(Split(Mask(s), '-'));
  }

  lemma {:induction false} EmptyFirst(parts: seq<string>)
    ensures NonEmpty([""] + parts) == NonEmpty(parts)
  {
    if parts == [] {
      assert [""] + parts == [""];
    } else {
      var k := |parts| - 1;
      EmptyFirst(parts[..k]);
      assert ([""] + parts)[..k + 1] == [""] + parts[..k];
    }
  }

  lemma {:induction false} TrimKeepsWords(s: string)
    ensures Words(TrimSpace(s)) == Words(s)
    decreases |s|
  {
    hide Words;
    if s != "" && IsSpace(s[0]) {
      TrimKeepsWords(s[1..]);
      assert s == [s[0]] + s[1..];
      EdgeSeparator(s[1..], s[0]);
    } else if s != "" && IsSpace(s[|s| - 1]) {
      TrimKeepsWords(s[..|s| - 1]);
      assert s == s[..|s| - 1] + [s[|s| - 1]];
      EdgeSeparator(s[..|s| - 1], s[|s| - 1]);
    }
  }

  function Slug(s: string): string { TrimDashes(Buffer(TrimSpace(s))) }

  /** A slug is the runs of slug characters of the lower-cased text, joined by single hyphens. */
  lemma SlugIsItsWords(s: string)
    ensures Slug(s) == JoinWords(Words(s))
  {
    hide Words;
    hide Done;
    hide Cur;
    var t := TrimSpace(s);
    TrimKeepsWords(s);
    BufferIs(t);
    DashFree(t);
    TrimPending(Done(t), Cur(t));
  }

  /** sanitizeSlug, with its buffer and its previous-dash flag. */
  method SanitizeSlug(s: string) returns (slug: string)
    ensures slug == JoinWords(Words(s))
  {
    var t := TrimSpace(s);
    var b := "";
    var prevDash := false;
    for i := 0 to |t|
      invariant b == Buffer(t[..i])
      invariant prevDash <==> (b != "" && b[|b| - 1] == '-')
    {
      var r := ToLower(t[i]);
      assert t[..i + 1][..i] == t[..i];
      if IsLower(r) || IsDigit(r) {
        b := b + [r];
        prevDash := false;
        continue;
      }
      if !prevDash && |b| > 0 {
        b := b + "-";
        prevDash := true;
      }
    }
    assert t[..|t|] == t;
    SlugIsItsWords(s);
    return TrimDashes(b);
  }

  // ---------------------------------------------------------------- well-formed slugs

  predicate LabelChar(c: char) { 'a' <= c <= 'z' || '0' <= c <= '9' || c == '-' }

  /** [a-z0-9-], no hyphen at either edge, no two in a row. */
  ghost predicate WellFormedSlug(s: string) {
    && (forall i :: 0 <= i < |s| ==> LabelChar(s[i]))
    && (s != "" ==> s[0] != '-' && s[|s| - 1] != '-')
    && (forall i :: 0 <= i < |s| - 1 ==> !(s[i] == '-' && s[i + 1] == '-'))
  }

  ghost predicate RunWords(words: seq<string>) {
    forall i :: 0 <= i < |words| ==> words[i] != "" && forall k :: 0 <= k < |words[i]| ==> Alnum(words[i][k])
  }

  lemma {:induction false} JoinedIsWellFormed(words: seq<string>)
    requires RunWords(words)
    ensures WellFormedSlug(JoinWords(words))
  {
    if |words| > 1 {
      var tail := words[1..];
      JoinedIsWellFormed(tail);
      assert Join(words, '-') == words[0] + ['-'] + Join(tail, '-');
      assert SlugWords(tail);
      JoinEdges(tail);
    }
  }

  lemma SplitCovers(s: string, sep: char)
    ensures forall p, k :: p in Split(s, sep) && 0 <= k < |p| ==> p[k] in s
  {
    if s != "" {
      SplitCovers(s[1..], sep);
      assert forall c :: c in s[1..] ==> c in s;
    }
  }

  lemma WordsAreRuns(s: string)
    ensures RunWords(Words(s))
  {
    hide NonEmpty;
    var parts := Split(Mask(s), '-');
    SplitCovers(Mask(s), '-');
    forall i, k | 0 <= i < |Words(s)| && 0 <= k < |Words(s)[i]| ensures Alnum(Words(s)[i][k]) {
      var p := Words(s)[i];
      assert p in parts && p[k] in Mask(s) && p[k] in p;
      assert '-' !in p;
    }
  }

  /** Every output is a well-formed slug, whatever the input. */
  lemma SlugIsWellFormed(s: string)
    ensures WellFormedSlug(JoinWords(Words(s)))
  {
    WordsAreRuns(s);
    JoinedIsWellFormed(Words(s));
  }

  lemma {:induction false} PushesItself(s: string)
    requires forall i :: 0 <= i < |s| ==> LabelChar(s[i])
    requires s != "" ==> s[0] != '-'
    requires forall i :: 0 <= i < |s| - 1 ==> !(s[i] == '-' && s[i + 1] == '-')
    ensures Buffer(s) == s
  {
    if s != "" {
      var (rest, c) := (s[..|s| - 1], s[|s| - 1]);
      PushesItself(rest);
      assert s == rest + [c];
      assert LabelChar(c) && ToLower(c) == c;
      assert rest != "" && c == '-' ==> rest[|rest| - 1] != '-';
    }
  }

  /** The slugs are exactly the texts the function leaves alone; so it is idempotent. */
  lemma FixpointsAreSlugs(s: string)
    ensures JoinWords(Words(s)) == s <==> WellFormedSlug(s)
  {
    hide Words;
    hide WellFormedSlug;
    hide JoinWords;
    SlugIsWellFormed(s);
    if WellFormedSlug(s) {
      LeftAlone(s);
      SlugIsItsWords(s);
    }
  }

  lemma LeftAlone(s: string)
    requires WellFormedSlug(s)
    ensures Slug(s) == s
  {
    hide Buffer;
    PushesItself(s);
    if s != "" {
      assert LabelChar(s[0]) && LabelChar(s[|s| - 1]);
      assert TrimSpace(s) == s;
      assert TrimDashes(s) == s;
    }
  }

  lemma Idempotent(s: string)
    ensures var slug := JoinWords(Words(s)); JoinWords(Words(slug)) == slug
  {
    SlugIsWellFormed(s);
    FixpointsAreSlugs(JoinWords(Words(s)));
  }

  lemma {:induction false} KeepsEveryRun(parts: seq<string>)
    ensures NonEmpty(parts) == [] <==> forall p :: p in parts ==> p == ""
  {
    if parts != [] {
      var k := |parts| - 1;
      KeepsEveryRun(parts[..k]);
      assert parts == parts[..k] + [parts[k]];
      assert |NonEmpty(parts)| == |NonEmpty(parts[..k])| + if parts[k] == "" then 0 else 1;
      if NonEmpty(parts) != [] {
        assert NonEmpty(parts)[0] in parts;
      } else {
        assert parts[k] == "" && NonEmpty(parts[..k]) == [];
      }
    }
  }

  lemma {:induction false} AllSeparators(s: string)
    ensures (forall p :: p in Split(s, '-') ==> p == "") <==> (forall i :: 0 <= i < |s| ==> s[i] == '-')
  {
    if s != "" {
      AllSeparators(s[1..]);
      var rest := Split(s[1..], '-');
      assert s == [s[0]] + s[1..];
      if s[0] != '-' {
        var w := Split(s, '-')[0];
        assert w == [s[0]] + rest[0] && w != "" && w in Split(s, '-');
      } else {
        assert Split(s, '-') == [""] + rest;
        assert forall p :: p in Split(s, '-') <==> p == "" || p in rest;
        assert forall i :: 0 <= i < |s[1..]| ==> s[1..][i] == s[i + 1];
        assert forall i :: 1 <= i < |s| ==> s[i] == s[1..][i - 1];
      }
    }
  }

  /** The slug character this one folds to: an ASCII letter or digit, an ASCII capital's small letter, and
      i and k for the two other characters whose lower case is ASCII. */
  function Folds(c: char): Option<char> {
    if 'a' <= c <= 'z' || '0' <= c <= '9' then Some(c)
    else if 'A' <= c <= 'Z' then Some(c - 'A' + 'a')
    else if c == '\U{0130}' then Some('i')
    else if c == '\U{212A}' then Some('k')
    else None
  }

  lemma FoldsIs(c: char)
    ensures Folds(c) == if Alnum(ToLower(c)) then Some(ToLower(c)) else None
  {}

  predicate HasSlugChar(s: string) { exists i :: 0 <= i < |s| && Folds(s[i]).Some? }

  lemma {:induction false} CurIsOpen(s: string)
    ensures Cur(s) != "" <==> s != "" && Folds(s[|s| - 1]).Some?
  {
    hide Done;
    hide Words;
    if s != "" {
      var (rest, c) := (s[..|s| - 1], s[|s| - 1]);
      assert s == rest + [c];
      ScanStep(rest, c);
      FoldsIs(c);
    } else {
      assert Mask("") == "";
    }
  }

  /** The slug, one character at a time. The empty text has the empty slug. A character that folds to a
      letter or digit adds it, after a hyphen if something was skipped since the last one; any other
      character adds nothing. These laws determine the slug of every text. */
  lemma SlugLaws(s: string, c: char)
    ensures JoinWords(Words("")) == ""
    ensures var (before, after) := (JoinWords(Words(s)), JoinWords(Words(s + [c])));
            && (Folds(c).None? ==> after == before)
            && (Folds(c).Some? ==>
                after == before + (if before == "" || Folds(s[|s| - 1]).Some? then "" else "-") + [Folds(c).value])
  {
    hide Done;
    hide Cur;
    hide Words;
    hide Folds;
    hide JoinWords;
    NoWords();
    DashFree(s);
    DashFree(s + [c]);
    ScanStep(s, c);
    FoldsIs(c);
    CurIsOpen(s);
    if Folds(c).Some? {
      JoinGrows(Done(s), Cur(s), Folds(c).value);
    }
  }

  lemma NoWords()
    ensures JoinWords(Words("")) == ""
  {
    assert Mask("") == "" && Split("", '-') == [""] && [""][..0] == [] && NonEmpty([""]) == [];
  }

  lemma JoinGrows(done: seq<string>, cur: string, f: char)
    requires SlugWords(done)
    ensures var before := JoinWords(if cur == "" then done else done + [cur]);
            JoinWords(done + [cur + [f]]) == before + (if before == "" || cur != "" then "" else "-") + [f]
  {
    if done != [] {
      JoinSnoc(done, cur + [f]);
      JoinSnoc(done, cur);
      JoinEdges(done);
    } else {
      assert done + [cur + [f]] == [cur + [f]] && done + [cur] == [cur];
    }
  }

  lemma MaskedAway(s: string)
    ensures (forall i :: 0 <= i < |Mask(s)| ==> Mask(s)[i] == '-') <==> !HasSlugChar(s)
  {
    hide Folds;
    hide ToLower;
    forall i | 0 <= i < |s| ensures Mask(s)[i] == '-' <==> Folds(s[i]).None? {
      FoldsIs(s[i]);
    }
  }

  /** A slug is empty exactly when the text has no letter or digit to keep. */
  lemma EmptySlugIff(s: string)
    ensures JoinWords(Words(s)) == "" <==> !HasSlugChar(s)
  {
    hide HasSlugChar;
    hide Mask;
    hide Split;
    hide NonEmpty;
    var words := Words(s);
    KeepsEveryRun(Split(Mask(s), '-'));
    AllSeparators(Mask(s));
    MaskedAway(s);
    if words != [] {
      WordsAreRuns(s);
      assert SlugWords(words);
      JoinEdges(words);
    }
  }

  // ---------------------------------------------------------------- the first label

  predicate IsHex8(s: string) { |s| == HASH_LEN && forall i :: 0 <= i < |s| ==> IsDigit(s[i]) || 'a' <= s[i] <= 'f' }

  /** The first eight hex characters of the label's sha256. */
  type Hex8 = s: string | IsHex8(s) witness "00000000"

  function DnsLabel(full: string, hash: Hex8): string {
    if |full| <= DNS_LABEL_MAX then full
    else TrimRight(full[..DNS_LABEL_MAX - 1 - HASH_LEN]) + "-" + hash
  }

  /** A legal label: 1 to 63 octets of [a-z0-9-] with no hyphen at either edge. */
  predicate LegalLabel(s: string) {
    && 1 <= |s| <= DNS_LABEL_MAX
    && (forall i :: 0 <= i < |s| ==> LabelChar(s[i]))
    && s[0] != '-' && s[|s| - 1] != '-'
  }

  /** The 63-octet limit, spelled out. */
  lemma LegalLabelIff(s: string)
    ensures LegalLabel(s) <==>
            && 1 <= |s| <= 63 && s[0] != '-' && s[|s| - 1] != '-'
            && forall i :: 0 <= i < |s| ==> 'a' <= s[i] <= 'z' || '0' <= s[i] <= '9' || s[i] == '-'
  {}

  function HostLabel(component: string, env: string, hash: Hex8): string {
    DnsLabel(JoinWords(Words(component)) + "-" + JoinWords(Words(env)), hash)
  }

  function HostForApp(component: string, env: string, domain: string, hash: Hex8): string {
    HostLabel(component, env, hash) + "." + domain
  }

  lemma {:induction false} TrimRightFacts(s: string)
    ensures var t := TrimRight(s);
            && |t| <= |s| && t == s[..|t|] && (t != "" ==> t[|t| - 1] != '-')
            && (s != "" && s[0] != '-' ==> t != "")
  {
    if s != "" && s[|s| - 1] == '-' {
      TrimRightFacts(s[..|s| - 1]);
    }
  }

  /** The label logic alone, over any two well-formed slugs. */
  lemma LabelLegalIff(a: string, b: string, hash: Hex8)
    requires WellFormedSlug(a) && WellFormedSlug(b)
    ensures LegalLabel(DnsLabel(a + "-" + b, hash)) <==> a != "" && (b != "" || |a + "-" + b| > DNS_LABEL_MAX)
    ensures a != "" || b != "" ==> |DnsLabel(a + "-" + b, hash)| <= DNS_LABEL_MAX
  {
    var full := a + "-" + b;
    assert forall i :: 0 <= i < |full| ==> LabelChar(full[i]);
    assert a != "" ==> full[0] == a[0];
    if |full| > DNS_LABEL_MAX {
      var cut := full[..DNS_LABEL_MAX - 1 - HASH_LEN];
      TrimRightFacts(cut);
      assert cut[0] == full[0];
      var out := DnsLabel(full, hash);
      assert out[|out| - 1] == hash[|hash| - 1];
      assert forall i :: 0 <= i < |out| ==> LabelChar(out[i]);
      CutEdge(cut, hash);
    }
  }

  lemma CutEdge(cut: string, hash: string)
    requires cut != ""
    ensures (TrimRight(cut) + "-" + hash)[0] == '-' <==> cut[0] == '-'
  {
    TrimRightFacts(cut);
  }

  /** The host's first label is a legal DNS label exactly when the component id has a letter or
      digit and either the environment has one too or the combined label had to be cut; it is the
      two slugs themselves whenever they fit. */
  lemma FirstLabelLegalIff(component: string, env: string, domain: string, hash: Hex8)
    ensures var (a, b) := (JoinWords(Words(component)), JoinWords(Words(env)));
            var first := Split(HostForApp(component, env, domain, hash), '.')[0];
            && (LegalLabel(first) <==> HasSlugChar(component) && (HasSlugChar(env) || |a| + 1 > DNS_LABEL_MAX))
            && (|a| + 1 + |b| <= DNS_LABEL_MAX ==> first == a + "-" + b)
            && |first| <= DNS_LABEL_MAX
  {
    hide Words;
    hide HasSlugChar;
    var (a, b) := (JoinWords(Words(component)), JoinWords(Words(env)));
    SlugIsWellFormed(component);
    SlugIsWellFormed(env);
    EmptySlugIff(component);
    EmptySlugIff(env);
    LabelLegalIff(a, b, hash);
    LabelHasNoDot(a, b, hash);
    SplitAtSeparator(HostLabel(component, env, hash), '.', domain);
  }

  lemma LabelHasNoDot(a: string, b: string, hash: Hex8)
    requires WellFormedSlug(a) && WellFormedSlug(b)
    ensures '.' !in DnsLabel(a + "-" + b, hash)
  {
    var full := a + "-" + b;
    assert forall i :: 0 <= i < |full| ==> LabelChar(full[i]);
    if |full| > DNS_LABEL_MAX {
      TrimRightFacts(full[..DNS_LABEL_MAX - 1 - HASH_LEN]);
    }
  }

  /** Failing inputs: a component of symbols only, and a short component in an environment of symbols
      only, get a first label no resolver accepts. */
  lemma SymbolsBreakTheLabel(domain: string, hash: Hex8)
    ensures !LegalLabel(Split(HostForApp("***", "prod", domain, hash), '.')[0])
    ensures !LegalLabel(Split(HostForApp("api", "***", domain, hash), '.')[0])
  {
    hide HostForApp;
    hide LegalLabel;
    hide Split;
    hide Words;
    hide JoinWords;
    hide HasSlugChar;
    NoSlugChar();
    SlugOfApi();
    FirstLabelLegalIff("***", "prod", domain, hash);
    FirstLabelLegalIff("api", "***", domain, hash);
  }

  lemma NoSlugChar()
    ensures !HasSlugChar("***")
  {}

  lemma SlugOfApi()
    ensures |JoinWords(Words("api"))| == 3
  {
    hide Words;
    hide JoinWords;
    assert WellFormedSlug("api");
    FixpointsAreSlugs("api");
  }

  /** The whole host: the label, a dot and the ingress domain. The label is the two slugs around a hyphen
      when that fits 63 octets; otherwise its first 54, less the hyphens they end in, a hyphen and
      the hash. */
  lemma HostExact(component: string, env: string, domain: string, hash: Hex8) returns (keep: nat)
    ensures var full := JoinWords(Words(component)) + "-" + JoinWords(Words(env));
            var host := HostForApp(component, env, domain, hash);
            && (|full| <= 63 ==> host == full + "." + domain)
            && (|full| > 63 ==>
                && keep <= 54 && host == full[..keep] + "-" + hash + "." + domain && |hash| == 8
                && (forall i :: keep <= i < 54 ==> full[i] == '-') && (keep > 0 ==> full[keep - 1] != '-'))
  {
    hide Words;
    hide JoinWords;
    var full := JoinWords(Words(component)) + "-" + JoinWords(Words(env));
    keep := 0;
    if |full| > 63 {
      TrimRightFacts(full[..54]);
      TrimsOnlyHyphens(full[..54]);
      keep := |TrimRight(full[..54])|;
      assert full[..54][..keep] == full[..keep];
    }
  }

  lemma {:induction false} TrimsOnlyHyphens(s: string)
    ensures |TrimRight(s)| <= |s| && forall i :: |TrimRight(s)| <= i < |s| ==> s[i] == '-'
  {
    if s != "" && s[|s| - 1] == '-' {
      TrimsOnlyHyphens(s[..|s| - 1]);
    }
  }
}
