// Escaping the text of a code block, and decoding entities in whole-string passes.
module CodeText {

  // ---------- Escaping ----------

  predicate Alphanumeric(c: char) { 'a' <= c <= 'z' || 'A' <= c <= 'Z' || '0' <= c <= '9' }

  // [a-z0-9]+; at the front, after `some` such characters or none.
  predicate NameEnds(t: string, some: bool) {
    t != "" && if Alphanumeric(t[0]) then NameEnds(t[1..], true) else some && t[0] == ';'
  }

  // #?[a-z0-9]+; at the front: what follows the ampersand of a reference.
  predicate IsReference(t: string) {
    if t != "" && t[0] == '#' then NameEnds(t[1..], false) else NameEnds(t, false)
  }

  // A letter or digit of ASCII, by its code.
  predicate IsLetterOrDigit(c: char) { 97 <= c as int <= 122 || 65 <= c as int <= 90 || 48 <= c as int <= 57 }

  // A number sign or none, then letters or digits, at least one, then a semicolon.
  ghost predicate LooksLikeReference(t: string) {
    exists name, sign :: sign in {0, 1} && IsNameBetween(t, sign, name)
  }

  predicate IsNameBetween(t: string, sign: int, end: int) {
    0 <= sign < end < |t| && (sign == 1 ==> t[0] == '#') && t[end] == ';'
    && forall i :: sign <= i < end ==> IsLetterOrDigit(t[i])
  }

  lemma {:induction false} NameEndsIff(t: string, some: bool) returns (end: nat)
    ensures NameEnds(t, some)
            <==> end < |t| && t[end] == ';' && (some || end > 0) && forall i :: 0 <= i < end ==> IsLetterOrDigit(t[i])
    ensures forall i :: 0 <= i < end && i < |t| ==> IsLetterOrDigit(t[i])
    ensures end <= |t| && (end < |t| ==> !IsLetterOrDigit(t[end]))
    decreases |t|
  {
    end := 0;
    if t != "" && Alphanumeric(t[0]) {
      var rest := NameEndsIff(t[1..], true);
      end := rest + 1;
      assert forall i :: 0 < i <= |t| - 1 ==> t[i] == t[1..][i - 1];
    }
  }

  lemma ReferenceIs(t: string)
    ensures IsReference(t) <==> LooksLikeReference(t)
  {
    var sign := if t != "" && t[0] == '#' then 1 else 0;
    var end := NameEndsIff(t[sign..], false);
    assert forall i :: sign <= i < |t| ==> t[i] == t[sign..][i - sign];
    if IsReference(t) {
      assert IsNameBetween(t, sign, sign + end);
    }
    if name, s :| s in {0, 1} && IsNameBetween(t, s, name) {
      assert t[s] != '#';
      assert s == sign;
      assert name - sign == end;
    }
  }

  function EscapeAmp(s: string): string {
    if s == "" then ""
    else (if s[0] == '&' && !IsReference(s[1..]) then "&amp;" else [s[0]]) + EscapeAmp(s[1..])
  }

  // Replaces every c.
  function EscapeChar(c: char, ref: string, s: string): string {
    if s == "" then "" else (if s[0] == c then ref else [s[0]]) + EscapeChar(c, ref, s[1..])
  }

  function EscapeForCode(s: string): string {
    EscapeChar('>', "&gt;", EscapeChar('<', "&lt;", EscapeAmp(s)))
  }

  // ---------- Decoding ----------

  // One global replacement: of a fixed reference, or of a hexadecimal or decimal one.
  datatype Pass = Named(pattern: string, plain: char) | Numeric(prefix: string, hex: bool)

  // String.fromCharCode(parseInt(digits, 16 or 10)), whatever code unit that is.
  type FromDigits = (string, bool) -> char

  const PASSES: seq<Pass> := [
    Named("&amp;", '&'), Named("&lt;", '<'), Named("&gt;", '>'), Named("&quot;", '"'), Named("&#39;", '\''),
    Named("&apos;", '\''), Numeric("&#x", true), Numeric("&#", false)]

  predicate IsDigitOf(c: char, hex: bool) {
    '0' <= c <= '9' || (hex && ('a' <= c <= 'f' || 'A' <= c <= 'F'))
  }

  function DigitRun(s: string, hex: bool): (n: nat)
    ensures n <= |s|
  {
    if s == "" || !IsDigitOf(s[0], hex) then 0 else 1 + DigitRun(s[1..], hex)
  }

  // The length of the match at the front, or 0.
  function MatchLength(p: Pass, s: string): (n: nat)
    ensures n <= |s|
  {
    match p
    case Named(pattern, _) => if pattern <= s then |pattern| else 0
    case Numeric(prefix, hex) =>
      if prefix <= s then
        var digits := DigitRun(s[|prefix|..], hex);
        var end := |prefix| + digits;
        if digits > 0 && end < |s| && s[end] == ';' then end + 1 else 0
      else 0
  }

  function Replacement(p: Pass, from: FromDigits, matched: string): char {
    match p
    case Named(_, plain) => plain
    case Numeric(prefix, hex) =>
      if |prefix| < |matched| then from(matched[|prefix|..|matched| - 1], hex) else from("", hex)
  }

  function ReplaceAll(p: Pass, from: FromDigits, s: string): string
    decreases |s|
  {
    if s == "" then ""
    else
      var n := MatchLength(p, s);
      if n == 0 then [s[0]] + ReplaceAll(p, from, s[1..])
      else [Replacement(p, from, s[..n])] + ReplaceAll(p, from, s[n..])
  }

  function RunPasses(passes: seq<Pass>, from: FromDigits, s: string): string
    decreases |passes|
  {
    if passes == [] then s else RunPasses(passes[1..], from, ReplaceAll(passes[0], from, s))
  }

  function DecodeHtmlEntities(from: FromDigits, s: string): string { RunPasses(PASSES, from, s) }

  // One whole reference, and what a pass makes of it.
  lemma PassDecodes(p: Pass, from: FromDigits, s: string)
    requires s != "" && MatchLength(p, s) == |s|
    ensures ReplaceAll(p, from, s) == [Replacement(p, from, s)]
  {
    assert s[..|s|] == s && s[|s|..] == "";
  }

  // ---------- Escaped text is safe, and escaping it again changes nothing ----------

  lemma {:induction false} NameEndsKept(t: string, some: bool, c: char, ref: string)
    requires ref != "" && ref[0] == '&' && (c == '<' || c == '>')
    ensures NameEnds(EscapeAmp(t), some) <==> NameEnds(t, some)
    ensures NameEnds(EscapeChar(c, ref, t), some) <==> NameEnds(t, some)
    decreases |t|
  {
    if t != "" {
      NameEndsKept(t[1..], true, c, ref);
      Heads(t, c, ref);
    }
  }

  // What the escapes do to the first character.
  lemma Heads(t: string, c: char, ref: string)
    requires t != ""
    ensures EscapeAmp(t) != "" && EscapeAmp(t)[0] == t[0]
    ensures t[0] != '&' ==> EscapeAmp(t)[1..] == EscapeAmp(t[1..])
    ensures t[0] != c ==> EscapeChar(c, ref, t) != "" && EscapeChar(c, ref, t)[0] == t[0]
                          && EscapeChar(c, ref, t)[1..] == EscapeChar(c, ref, t[1..])
    ensures t[0] == c ==> EscapeChar(c, ref, t) == ref + EscapeChar(c, ref, t[1..])
  {
  }

  lemma ReferenceKept(t: string, c: char, ref: string)
    requires ref != "" && ref[0] == '&' && (c == '<' || c == '>')
    ensures IsReference(EscapeAmp(t)) <==> IsReference(t)
    ensures IsReference(EscapeChar(c, ref, t)) <==> IsReference(t)
  {
    NameEndsKept(t, false, c, ref);
    if t != "" {
      NameEndsKept(t[1..], false, c, ref);
      Heads(t, c, ref);
    }
  }

  // Every ampersand begins a reference.
  predicate AllReferences(s: string) {
    s == "" || ((s[0] == '&' ==> IsReference(s[1..])) && AllReferences(s[1..]))
  }

  // A reference and what comes after it.
  predicate ReferenceText(ref: string) { ref == "&amp;" || ref == "&lt;" || ref == "&gt;" }

  lemma AfterReference(ref: string, rest: string)
    requires ReferenceText(ref) && AllReferences(rest)
    ensures AllReferences(ref + rest)
  {
    var s := ref + rest;
    assert s[1..] == ref[1..] + rest;
    var n := |ref|;
    assert s[n..] == rest;
    assert forall i :: 1 <= i < n ==> s[i] != '&';
    AllReferencesFrom(s, 1, n);
    NameOf(s[1..], n - 2);
  }

  // Letters and then a semicolon.
  lemma {:induction false} NameOf(t: string, letters: nat)
    requires letters < |t| && t[letters] == ';' && forall i :: 0 <= i < letters ==> Alphanumeric(t[i])
    ensures NameEnds(t, true) && (letters > 0 ==> NameEnds(t, false))
    decreases letters
  {
    if letters > 0 {
      NameOf(t[1..], letters - 1);
    }
  }

  lemma {:induction false} AllReferencesFrom(s: string, i: nat, n: nat)
    requires i <= n <= |s| && AllReferences(s[n..]) && forall j :: i <= j < n ==> s[j] != '&'
    ensures AllReferences(s[i..])
    decreases n - i
  {
    if i < n {
      AllReferencesFrom(s, i + 1, n);
      assert s[i..][1..] == s[i + 1..];
    }
  }

  lemma {:induction false} EscapeAmpSafe(s: string)
    ensures AllReferences(EscapeAmp(s))
    decreases |s|
  {
    if s != "" {
      EscapeAmpSafe(s[1..]);
      ReferenceKept(s[1..], '<', "&lt;");
      if s[0] == '&' && !IsReference(s[1..]) {
        AfterReference("&amp;", EscapeAmp(s[1..]));
      } else {
        assert EscapeAmp(s)[1..] == EscapeAmp(s[1..]);
      }
    }
  }

  lemma {:induction false} EscapeCharSafe(c: char, ref: string, s: string)
    requires ReferenceText(ref) && (c == '<' || c == '>') && AllReferences(s)
    ensures AllReferences(EscapeChar(c, ref, s))
    ensures c !in EscapeChar(c, ref, s)
    ensures forall d :: d !in s && d !in ref ==> d !in EscapeChar(c, ref, s)
    decreases |s|
  {
    if s != "" {
      EscapeCharSafe(c, ref, s[1..]);
      ReferenceKept(s[1..], c, ref);
      if s[0] == c {
        AfterReference(ref, EscapeChar(c, ref, s[1..]));
      } else {
        assert EscapeChar(c, ref, s)[1..] == EscapeChar(c, ref, s[1..]);
      }
    }
  }

  lemma {:induction false} EscapeAmpIdle(s: string)
    requires AllReferences(s)
    ensures EscapeAmp(s) == s
    decreases |s|
  {
    if s != "" {
      EscapeAmpIdle(s[1..]);
      assert s == [s[0]] + s[1..];
    }
  }

  lemma {:induction false} EscapeCharIdle(c: char, ref: string, s: string)
    requires c !in s
    ensures EscapeChar(c, ref, s) == s
    decreases |s|
  {
    if s != "" {
      EscapeCharIdle(c, ref, s[1..]);
      assert s == [s[0]] + s[1..];
    }
  }

  // No raw angle bracket, no bare ampersand; and a second escape finds nothing to do.
  lemma EscapeIsSafe(s: string)
    ensures '<' !in EscapeForCode(s) && '>' !in EscapeForCode(s)
    ensures AllReferences(EscapeForCode(s))
    ensures EscapeForCode(EscapeForCode(s)) == EscapeForCode(s)
  {
    var a := EscapeAmp(s);
    var b := EscapeChar('<', "&lt;", a);
    EscapeAmpSafe(s);
    EscapeCharSafe('<', "&lt;", a);
    EscapeCharSafe('>', "&gt;", b);
    var e := EscapeForCode(s);
    EscapeAmpIdle(e);
    EscapeCharIdle('<', "&lt;", e);
    EscapeCharIdle('>', "&gt;", e);
  }

  // ---------- Decoding undoes escaping ----------

  // A word of no special characters is at the front after escaping exactly when it was there before.
  lemma {:induction false} PrefixKept(w: string, t: string, c: char, ref: string)
    requires '&' !in w && c !in w && ref != "" && ref[0] == '&'
    ensures w <= EscapeAmp(t) <==> w <= t
    ensures w <= EscapeChar(c, ref, t) <==> w <= t
    decreases |w|
  {
    if w != "" && t != "" {
      Heads(t, c, ref);
      PrefixKept(w[1..], t[1..], c, ref);
      HeadTail(w, t);
      HeadTail(w, EscapeAmp(t));
      if EscapeChar(c, ref, t) != "" {
        HeadTail(w, EscapeChar(c, ref, t));
      }
    }
  }

  lemma HeadTail(w: string, t: string)
    requires w != "" && t != ""
    ensures w <= t <==> w[0] == t[0] && w[1..] <= t[1..]
  {
    assert w == [w[0]] + w[1..] && t == [t[0]] + t[1..];
    if w[0] == t[0] && w[1..] <= t[1..] {
      assert forall i :: 1 <= i < |w| ==> w[i] == w[1..][i - 1] && t[i] == t[1..][i - 1];
    }
    if w <= t {
      assert forall i :: 0 <= i < |w| - 1 ==> w[1..][i] == w[i + 1] && t[1..][i] == t[i + 1];
    }
  }

  predicate Reference(p: Pass) {
    p.Named? && |p.pattern| >= 2 && p.pattern[0] == '&' && '&' !in p.pattern[1..]
  }

  lemma Unmatched(p: Pass, from: FromDigits, c: char, s: string)
    requires Reference(p) && !(p.pattern <= [c] + s)
    ensures ReplaceAll(p, from, [c] + s) == [c] + ReplaceAll(p, from, s)
  {
    assert ([c] + s)[1..] == s;
  }

  lemma Matched(p: Pass, from: FromDigits, s: string)
    requires Reference(p)
    ensures ReplaceAll(p, from, p.pattern + s) == [p.plain] + ReplaceAll(p, from, s)
  {
    var whole := p.pattern + s;
    assert p.pattern <= whole && whole[|p.pattern|..] == s;
  }

  // The first pass turns the ampersands it was escaped with back, and nothing else.
  lemma {:induction false} AmpUndone(from: FromDigits, p: Pass, s: string)
    requires p == Named("&amp;", '&')
    ensures ReplaceAll(p, from, EscapeAmp(s)) == ReplaceAll(p, from, s)
    decreases |s|
  {
    if s != "" {
      var t := s[1..];
      assert s == [s[0]] + t;
      AmpUndone(from, p, t);
      AmpMatch(p, s);
      if s[0] == '&' && !IsReference(t) {
        assert EscapeAmp(s) == p.pattern + EscapeAmp(t);
        Matched(p, from, EscapeAmp(t));
        Unmatched(p, from, '&', t);
      } else if p.pattern <= s {
        var n := |p.pattern|;
        var u := s[n..];
        assert s == p.pattern + u;
        AmpSplit(p, s, u);
        AmpUndone(from, p, u);
        Matched(p, from, EscapeAmp(u));
        Matched(p, from, u);
      } else {
        assert EscapeAmp(s) == [s[0]] + EscapeAmp(t);
        Unmatched(p, from, s[0], EscapeAmp(t));
        Unmatched(p, from, s[0], t);
      }
    }
  }

  // Where the first pass matches, before and after escaping.
  lemma AmpMatch(p: Pass, s: string)
    requires p == Named("&amp;", '&') && s != ""
    ensures p.pattern <= s ==> s[0] == '&' && IsReference(s[1..])
    ensures p.pattern <= [s[0]] + EscapeAmp(s[1..]) <==> p.pattern <= s
  {
    HeadTail(p.pattern, s);
    HeadTail(p.pattern, [s[0]] + EscapeAmp(s[1..]));
    assert ([s[0]] + EscapeAmp(s[1..]))[1..] == EscapeAmp(s[1..]);
    assert p.pattern[1..] == "amp;";
    PrefixKept("amp;", s[1..], '<', "&lt;");
    if p.pattern <= s {
      NameOf(s[1..], 3);
    }
  }

  lemma AmpSplit(p: Pass, s: string, u: string)
    requires p == Named("&amp;", '&') && s == p.pattern + u
    ensures EscapeAmp(s) == p.pattern + EscapeAmp(u)
  {
    AmpMatch(p, s);
    assert s[1..] == "amp;" + u;
    WordKept("amp;", u);
    assert EscapeAmp(s) == [s[0]] + EscapeAmp(s[1..]);
  }

  lemma {:induction false} WordKept(w: string, u: string)
    requires '&' !in w
    ensures EscapeAmp(w + u) == w + EscapeAmp(u)
    decreases |w|
  {
    if w == "" {
      assert w + u == u;
    } else {
      assert (w + u)[1..] == w[1..] + u && w == [w[0]] + w[1..];
      WordKept(w[1..], u);
    }
  }

  // Escaping one character and replacing another reference do not interfere.
  lemma {:induction false} Commute(from: FromDigits, p: Pass, c: char, ref: string, s: string)
    requires Reference(p) && Reference(Named(ref, c)) && c !in p.pattern && p.plain != c && ref[1] != p.pattern[1]
    ensures ReplaceAll(p, from, EscapeChar(c, ref, s)) == EscapeChar(c, ref, ReplaceAll(p, from, s))
    decreases |s|
  {
    if s != "" {
      var t := s[1..];
      assert s == [s[0]] + t;
      Commute(from, p, c, ref, t);
      CharMatch(p, c, ref, s);
      if p.pattern <= s {
        var u := s[|p.pattern|..];
        assert s == p.pattern + u;
        WordKeptChar(c, ref, p.pattern, u);
        Commute(from, p, c, ref, u);
        Matched(p, from, EscapeChar(c, ref, u));
        Matched(p, from, u);
        ConsEscape(c, ref, p.plain, ReplaceAll(p, from, u));
      } else {
        Unmatched(p, from, s[0], t);
        ConsEscape(c, ref, s[0], t);
        ConsEscape(c, ref, s[0], ReplaceAll(p, from, t));
        if s[0] == c {
          OtherReference(from, p, ref, EscapeChar(c, ref, t));
        } else {
          Unmatched(p, from, s[0], EscapeChar(c, ref, t));
        }
      }
    }
  }

  lemma ConsEscape(c: char, ref: string, d: char, t: string)
    ensures EscapeChar(c, ref, [d] + t) == (if d == c then ref else [d]) + EscapeChar(c, ref, t)
  {
    assert ([d] + t)[1..] == t;
  }

  lemma CharMatch(p: Pass, c: char, ref: string, s: string)
    requires Reference(p) && Reference(Named(ref, c)) && c !in p.pattern && s != ""
    ensures s[0] != c ==> (p.pattern <= [s[0]] + EscapeChar(c, ref, s[1..]) <==> p.pattern <= s)
    ensures p.pattern <= s ==> s[0] != c
  {
    var w := p.pattern[1..];
    assert p.pattern == ['&'] + w;
    HeadTail(p.pattern, s);
    HeadTail(p.pattern, [s[0]] + EscapeChar(c, ref, s[1..]));
    assert ([s[0]] + EscapeChar(c, ref, s[1..]))[1..] == EscapeChar(c, ref, s[1..]);
    PrefixKept(w, s[1..], c, ref);
  }

  lemma {:induction false} WordKeptChar(c: char, ref: string, w: string, u: string)
    requires c !in w
    ensures EscapeChar(c, ref, w + u) == w + EscapeChar(c, ref, u)
    decreases |w|
  {
    if w == "" {
      assert w + u == u;
    } else {
      assert (w + u)[1..] == w[1..] + u && w == [w[0]] + w[1..];
      WordKeptChar(c, ref, w[1..], u);
    }
  }

  // A pass leaves a reference it is not about alone.
  lemma OtherReference(from: FromDigits, p: Pass, ref: string, t: string)
    requires Reference(p) && |ref| >= 2 && ref[0] == '&' && '&' !in ref[1..] && ref[1] != p.pattern[1]
    ensures ReplaceAll(p, from, ref + t) == ref + ReplaceAll(p, from, t)
  {
    var w := ref[1..];
    assert ref == ['&'] + w && ref + t == ['&'] + (w + t);
    assert w[0] == ref[1];
    Unmatched(p, from, '&', w + t);
    PlainWord(from, p, w, t);
  }

  lemma NoMatch(p: Pass, c: char, rest: string)
    requires Reference(p) && c != '&'
    ensures !(p.pattern <= [c] + rest)
  {
    PrefixAgrees(p.pattern, [c] + rest, 0);
  }

  lemma {:induction false} PlainWord(from: FromDigits, p: Pass, w: string, t: string)
    requires Reference(p) && '&' !in w
    ensures ReplaceAll(p, from, w + t) == w + ReplaceAll(p, from, t)
    decreases |w|
  {
    if w == "" {
      assert w + t == t;
    } else {
      var c, rest := w[0], w[1..];
      NoMatch(p, c, rest + t);
      Unmatched(p, from, c, rest + t);
      PlainWord(from, p, rest, t);
      HeadAndTail(w, t);
      HeadAndTail(w, ReplaceAll(p, from, t));
    }
  }

  lemma HeadAndTail(w: string, t: string)
    requires w != ""
    ensures w + t == [w[0]] + (w[1..] + t)
  {
    assert w == [w[0]] + w[1..];
  }

  // The pass for a character's own reference undoes escaping it.
  lemma {:induction false} CharUndone(from: FromDigits, p: Pass, s: string)
    requires Reference(p) && p.plain !in p.pattern
    ensures ReplaceAll(p, from, EscapeChar(p.plain, p.pattern, s)) == ReplaceAll(p, from, s)
    decreases |s|
  {
    if s != "" {
      var c, ref, t := p.plain, p.pattern, s[1..];
      assert s == [s[0]] + t;
      CharUndone(from, p, t);
      ConsEscape(c, ref, s[0], t);
      CharMatch(p, c, ref, s);
      if s[0] == c {
        Matched(p, from, EscapeChar(c, ref, t));
        Unmatched(p, from, c, t);
      } else if ref <= s {
        var u := s[|ref|..];
        assert s == ref + u;
        WordKeptChar(c, ref, ref, u);
        CharUndone(from, p, u);
        Matched(p, from, EscapeChar(c, ref, u));
        Matched(p, from, u);
      } else {
        Unmatched(p, from, s[0], EscapeChar(c, ref, t));
        Unmatched(p, from, s[0], t);
      }
    }
  }

  // Escaping never changes what a text decodes to, for any text.
  lemma DecodeOfEscape(from: FromDigits, s: string)
    ensures DecodeHtmlEntities(from, EscapeForCode(s)) == DecodeHtmlEntities(from, s)
  {
    var amp, lt, gt := PASSES[0], PASSES[1], PASSES[2];
    var a := EscapeAmp(s);
    var b := EscapeChar('<', "&lt;", a);
    var y := ReplaceAll(amp, from, s);
    Commute(from, amp, '>', "&gt;", b);
    Commute(from, amp, '<', "&lt;", a);
    AmpUndone(from, amp, s);
    assert ReplaceAll(amp, from, EscapeForCode(s)) == EscapeChar('>', "&gt;", EscapeChar('<', "&lt;", y));
    var z := ReplaceAll(lt, from, y);
    Commute(from, lt, '>', "&gt;", EscapeChar('<', "&lt;", y));
    CharUndone(from, lt, y);
    CharUndone(from, gt, z);
    var later := PASSES[1..][1..][1..];
    FirstThree(from, EscapeForCode(s));
    FirstThree(from, s);
  }

  lemma FirstThree(from: FromDigits, s: string)
    ensures DecodeHtmlEntities(from, s)
            == RunPasses(PASSES[3..], from,
                         ReplaceAll(PASSES[2], from, ReplaceAll(PASSES[1], from, ReplaceAll(PASSES[0], from, s))))
  {
    assert PASSES[1..][1..][1..] == PASSES[3..];
    assert PASSES[1..][0] == PASSES[1] && PASSES[1..][1..][0] == PASSES[2];
  }

  // ---------- When decoding changes a text ----------

  // Some pass finds something in the text as it stands.
  ghost predicate Matches(p: Pass, s: string) { exists i :: 0 <= i < |s| && MatchLength(p, s[i..]) > 0 }

  ghost predicate Decodable(passes: seq<Pass>, s: string) { exists k :: 0 <= k < |passes| && Matches(passes[k], s) }

  predicate Shrinking(p: Pass) { if p.Named? then |p.pattern| >= 2 else |p.prefix| >= 1 }

  lemma {:induction false} PassIsIdle(p: Pass, from: FromDigits, s: string)
    requires !Matches(p, s)
    ensures ReplaceAll(p, from, s) == s
    decreases |s|
  {
    if s != "" {
      assert s[0..] == s;
      MatchesTail(p, s);
      PassIsIdle(p, from, s[1..]);
      assert s == [s[0]] + s[1..];
    }
  }

  lemma {:induction false} PassShrinks(p: Pass, from: FromDigits, s: string)
    requires Shrinking(p) && Matches(p, s)
    ensures |ReplaceAll(p, from, s)| < |s|
    decreases |s|
  {
    var n := MatchLength(p, s);
    if n == 0 {
      MatchesTail(p, s);
      PassShrinks(p, from, s[1..]);
    } else {
      MatchesAreLong(p, s);
      PassNeverGrows(p, from, s[n..]);
    }
  }

  lemma MatchesAreLong(p: Pass, s: string)
    requires Shrinking(p)
    ensures MatchLength(p, s) != 1
  {
  }

  lemma {:induction false} PassNeverGrows(p: Pass, from: FromDigits, s: string)
    ensures |ReplaceAll(p, from, s)| <= |s|
    decreases |s|
  {
    if s != "" {
      var n := MatchLength(p, s);
      PassNeverGrows(p, from, s[if n == 0 then 1 else n..]);
    }
  }

  lemma MatchesTail(p: Pass, s: string)
    requires s != "" && MatchLength(p, s) == 0
    ensures Matches(p, s) <==> Matches(p, s[1..])
  {
    assert s[0..] == s;
    assert forall i :: 0 <= i < |s| - 1 ==> s[1..][i..] == s[i + 1..];
    if Matches(p, s) {
      var i :| 0 <= i < |s| && MatchLength(p, s[i..]) > 0;
      assert s[1..][i - 1..] == s[i..];
    }
  }

  lemma {:induction false} RunShrinks(passes: seq<Pass>, from: FromDigits, s: string)
    requires forall k :: 0 <= k < |passes| ==> Shrinking(passes[k])
    ensures |RunPasses(passes, from, s)| <= |s|
    ensures RunPasses(passes, from, s) == s <==> !Decodable(passes, s)
    decreases |passes|
  {
    if passes != [] {
      var rest, next := passes[1..], ReplaceAll(passes[0], from, s);
      if Matches(passes[0], s) {
        PassShrinks(passes[0], from, s);
      } else {
        PassIsIdle(passes[0], from, s);
      }
      RunShrinks(rest, from, next);
      if !Matches(passes[0], s) {
        if Decodable(rest, s) {
          var k :| 0 <= k < |rest| && Matches(rest[k], s);
          assert passes[k + 1] == rest[k];
        }
        if Decodable(passes, s) {
          var k :| 0 <= k < |passes| && Matches(passes[k], s);
          assert passes[k] == rest[k - 1];
        }
      }
    }
  }

  lemma PassesShrink()
    ensures forall k :: 0 <= k < |PASSES| ==> Shrinking(PASSES[k])
  {
  }

  lemma RunIff(passes: seq<Pass>, from: FromDigits, s: string, escaped: string)
    requires forall k :: 0 <= k < |passes| ==> Shrinking(passes[k])
    requires RunPasses(passes, from, escaped) == RunPasses(passes, from, s)
    ensures RunPasses(passes, from, escaped) == s <==> !Decodable(passes, s)
  {
    RunShrinks(passes, from, s);
  }

  // Decoding gives back the escaped text exactly when nothing in the text can be decoded.
  lemma RoundTripIff(from: FromDigits, s: string)
    ensures DecodeHtmlEntities(from, EscapeForCode(s)) == s <==> !Decodable(PASSES, s)
  {
    DecodeOfEscape(from, s);
    PassesShrink();
    RunIff(PASSES, from, s, EscapeForCode(s));
  }

  lemma {:induction false} PassesLeave(passes: seq<Pass>, from: FromDigits, s: string)
    requires forall k :: 0 <= k < |passes| ==> !Matches(passes[k], s)
    ensures RunPasses(passes, from, s) == s
    decreases |passes|
  {
    if passes != [] {
      PassIsIdle(passes[0], from, s);
      PassesLeave(passes[1..], from, s);
    }
  }

  // A text without an ampersand stays as it is.
  lemma PlainTextStays(from: FromDigits, s: string)
    requires '&' !in s
    ensures DecodeHtmlEntities(from, s) == s
  {
    PassesOfReferences();
    forall k | 0 <= k < |PASSES| ensures !Matches(PASSES[k], s) {
      forall i | 0 <= i < |s| ensures MatchLength(PASSES[k], s[i..]) == 0 {
        MatchIsReference(PASSES[k], s, i);
        assert s[i] in s;
      }
    }
    PassesLeave(PASSES, from, s);
  }

  lemma {:induction false} RunSplit(passes: seq<Pass>, k: nat, from: FromDigits, s: string)
    requires k <= |passes|
    ensures RunPasses(passes, from, s) == RunPasses(passes[k..], from, RunPasses(passes[..k], from, s))
    decreases k
  {
    if k > 0 {
      RunSplit(passes[1..], k - 1, from, ReplaceAll(passes[0], from, s));
      assert passes[..k][1..] == passes[1..][..k - 1] && passes[1..][k - 1..] == passes[k..];
    }
  }

  lemma OneCharStays(passes: seq<Pass>, from: FromDigits, s: string)
    requires |s| == 1 && forall k :: 0 <= k < |passes| ==> Shrinking(passes[k])
    ensures RunPasses(passes, from, s) == s
  {
    forall k | 0 <= k < |passes| ensures !Matches(passes[k], s) {
      assert s[0..] == s;
      MatchesAreLong(passes[k], s);
    }
    PassesLeave(passes, from, s);
  }

  // A reference that its own pass matches whole, and no earlier pass anywhere, becomes that pass's character.
  lemma ReferenceDecodes(k: nat, from: FromDigits, s: string)
    requires k < |PASSES| && s != "" && MatchLength(PASSES[k], s) == |s|
    requires forall j :: 0 <= j < k ==> !Matches(PASSES[j], s)
    ensures DecodeHtmlEntities(from, s) == [Replacement(PASSES[k], from, s)]
  {
    PassesShrink();
    RunSplit(PASSES, k, from, s);
    PassesLeave(PASSES[..k], from, s);
    PassDecodes(PASSES[k], from, s);
    OneCharStays(PASSES[k..][1..], from, [Replacement(PASSES[k], from, s)]);
  }

  lemma NotInside(p: Pass, s: string)
    requires OfReferences(p) && s != "" && '&' !in s[1..] && MatchLength(p, s) == 0
    ensures !Matches(p, s)
  {
    forall i | 0 <= i < |s| ensures MatchLength(p, s[i..]) == 0 {
      MatchIsReference(p, s, i);
      assert s[0..] == s;
      assert i > 0 ==> s[i] == s[1..][i - 1];
    }
  }

  lemma NamedApart(j: nat, k: nat)
    requires j < k < 6
    ensures PASSES[j].Named? && PASSES[k].Named? && MatchLength(PASSES[j], PASSES[k].pattern) == 0
  {
    var p, s := PASSES[j].pattern, PASSES[k].pattern;
    assert p[1] != s[1] || p[2] != s[2];
    PrefixAgrees(p, s, 1);
    PrefixAgrees(p, s, 2);
  }

  lemma PrefixAgrees(p: string, s: string, i: nat)
    requires i < |p| && i < |s|
    ensures p <= s ==> p[i] == s[i]
  {
  }

  lemma NamedDecodes(k: nat, from: FromDigits)
    requires k < 6
    ensures PASSES[k].Named? && DecodeHtmlEntities(from, PASSES[k].pattern) == [PASSES[k].plain]
  {
    NamedPassesOfReferences();
    var s := PASSES[k].pattern;
    forall j | 0 <= j < k ensures !Matches(PASSES[j], s) {
      NamedApart(j, k);
      NotInside(PASSES[j], s);
    }
    ReferenceDecodes(k, from, s);
  }

  lemma {:induction false} DigitRunIs(digits: string, rest: string, hex: bool)
    requires forall i :: 0 <= i < |digits| ==> IsHexOrDecimal(digits[i], hex)
    requires rest != "" && rest[0] == ';'
    ensures DigitRun(digits + rest, hex) == |digits|
    decreases |digits|
  {
    if digits == "" {
      assert digits + rest == rest;
    } else {
      assert (digits + rest)[1..] == digits[1..] + rest;
      DigitRunIs(digits[1..], rest, hex);
    }
  }

  // A decimal digit, or a hexadecimal one, by its code.
  predicate IsHexOrDecimal(c: char, hex: bool) {
    48 <= c as int <= 57 || (hex && (97 <= c as int <= 102 || 65 <= c as int <= 70))
  }

  lemma NumericMatches(p: Pass, from: FromDigits, digits: string)
    requires p.Numeric? && digits != "" && forall i :: 0 <= i < |digits| ==> IsHexOrDecimal(digits[i], p.hex)
    ensures var s := p.prefix + digits + ";";
            MatchLength(p, s) == |s| && Replacement(p, from, s) == from(digits, p.hex)
  {
    var s := p.prefix + digits + ";";
    DigitRunIs(digits, ";", p.hex);
    assert s[|p.prefix|..] == digits + ";" && s[|p.prefix|..|s| - 1] == digits;
  }

  lemma ApostropheWhole(s: string)
    ensures "&#39;" <= s ==> s == "&#39;" || ';' in s[..|s| - 1]
  {
    if "&#39;" <= s && |s| > 5 {
      assert s[4] in s[..|s| - 1];
    }
  }

  lemma ApostropheDigits(s: string, digits: string)
    requires s == "&#" + digits + ";"
    ensures s == "&#39;" ==> digits == "39"
  {
    if |digits| == 2 {
      assert digits == [s[2], s[3]];
    }
  }

  lemma NamedAside(k: nat, s: string)
    requires k < 6 && |s| >= 4 && s[0] == '&' && s[1] == '#' && s != "&#39;"
    requires '&' !in s[1..] && ';' !in s[..|s| - 1]
    ensures !Matches(PASSES[k], s)
  {
    NamedPassesOfReferences();
    PrefixAgrees(PASSES[k].pattern, s, 1);
    ApostropheWhole(s);
    NotInside(PASSES[k], s);
  }

  // A hexadecimal reference becomes the character of its digits, and so does a decimal one, but for the one that is
  // named.
  lemma HexDecodes(from: FromDigits, digits: string)
    requires digits != "" && forall i :: 0 <= i < |digits| ==> IsHexOrDecimal(digits[i], true)
    ensures DecodeHtmlEntities(from, "&#x" + digits + ";") == [from(digits, true)]
  {
    var s := "&#x" + digits + ";";
    assert PASSES[6] == Numeric("&#x", true);
    NumericMatches(PASSES[6], from, digits);
    assert s[1..] == "#x" + digits + ";" && s[..|s| - 1] == "&#x" + digits && s[2] == 'x';
    forall j | 0 <= j < 6 ensures !Matches(PASSES[j], s) {
      NamedAside(j, s);
    }
    ReferenceDecodes(6, from, s);
  }

  lemma DecimalDecodes(from: FromDigits, digits: string)
    requires digits != "" && digits != "39" && forall i :: 0 <= i < |digits| ==> IsHexOrDecimal(digits[i], false)
    ensures DecodeHtmlEntities(from, "&#" + digits + ";") == [from(digits, false)]
  {
    var s := "&#" + digits + ";";
    assert PASSES[6] == Numeric("&#x", true) && PASSES[7] == Numeric("&#", false);
    NumericMatches(PASSES[7], from, digits);
    assert s[1..] == "#" + digits + ";" && s[..|s| - 1] == "&#" + digits && s[2] == digits[0];
    ApostropheDigits(s, digits);
    forall j | 0 <= j < 6 ensures !Matches(PASSES[j], s) {
      NamedAside(j, s);
    }
    PassesOfReferences();
    PrefixAgrees("&#x", s, 2);
    NotInside(PASSES[6], s);
    ReferenceDecodes(7, from, s);
  }

  // The six named references.
  lemma NamedReferences(from: FromDigits)
    ensures DecodeHtmlEntities(from, "&amp;") == "&" && DecodeHtmlEntities(from, "&lt;") == "<"
    ensures DecodeHtmlEntities(from, "&gt;") == ">" && DecodeHtmlEntities(from, "&quot;") == "\""
    ensures DecodeHtmlEntities(from, "&#39;") == "'" && DecodeHtmlEntities(from, "&apos;") == "'"
  {
    NamedDecodes(0, from);
    NamedDecodes(1, from);
    NamedDecodes(2, from);
    NamedDecodes(3, from);
    NamedDecodes(4, from);
    NamedDecodes(5, from);
  }

  // For instance the text `&lt;` does not come back.
  lemma WrittenReferenceIsLost(from: FromDigits)
    ensures DecodeHtmlEntities(from, EscapeForCode("&lt;")) != "&lt;"
  {
    var s, lt := "&lt;", PASSES[1];
    assert s[0..] == s;
    assert MatchLength(lt, s[0..]) == 4;
    assert Matches(lt, s);
    RoundTripIff(from, s);
  }

  lemma {:induction false} RunOfDigits(t: string, hex: bool)
    ensures forall i :: 0 <= i < DigitRun(t, hex) ==> Alphanumeric(t[i])
    decreases |t|
  {
    if t != "" && IsDigitOf(t[0], hex) {
      RunOfDigits(t[1..], hex);
      assert forall i :: 0 < i < DigitRun(t, hex) ==> t[i] == t[1..][i - 1];
    }
  }

  lemma NumericIsReference(prefix: string, hex: bool, t: string)
    requires MatchLength(Numeric(prefix, hex), t) > 0
    requires |prefix| >= 2 && prefix[0] == '&' && prefix[1] == '#'
    requires forall i :: 2 <= i < |prefix| ==> Alphanumeric(prefix[i])
    ensures t[0] == '&' && IsReference(t[1..])
  {
    var n, digits := |prefix|, DigitRun(t[|prefix|..], hex);
    RunOfDigits(t[n..], hex);
    assert forall i :: n <= i < n + digits ==> t[i] == t[n..][i - n];
    assert t[1..][1..] == t[2..];
    NameOf(t[2..], n - 2 + digits);
  }

  lemma NamedIsReference(p: Pass, t: string)
    requires Reference(p) && p.pattern <= t && |p.pattern| >= 3 && p.pattern[|p.pattern| - 1] == ';'
    requires Alphanumeric(p.pattern[1]) || (p.pattern[1] == '#' && |p.pattern| >= 4)
    requires forall i :: 2 <= i < |p.pattern| - 1 ==> Alphanumeric(p.pattern[i])
    ensures t[0] == '&' && IsReference(t[1..])
  {
    var n := |p.pattern|;
    assert forall i :: 0 <= i < n ==> t[i] == p.pattern[i];
    if p.pattern[1] == '#' {
      assert t[1..][1..] == t[2..];
      NameOf(t[2..], n - 3);
    } else {
      NameOf(t[1..], n - 2);
    }
  }

  // The pass looks for text of the shape of a reference.
  predicate OfReferences(p: Pass) {
    match p
    case Named(pattern, _) =>
      Reference(p) && |pattern| >= 3 && pattern[|pattern| - 1] == ';'
      && (Alphanumeric(pattern[1]) || (pattern[1] == '#' && |pattern| >= 4))
      && forall i :: 2 <= i < |pattern| - 1 ==> Alphanumeric(pattern[i])
    case Numeric(prefix, _) =>
      |prefix| >= 2 && prefix[0] == '&' && prefix[1] == '#' && forall i :: 2 <= i < |prefix| ==> Alphanumeric(prefix[i])
  }

  lemma NamedPassesOfReferences()
    ensures forall k :: 0 <= k < 6 ==> PASSES[k].Named? && OfReferences(PASSES[k])
  {
  }

  lemma PassesOfReferences()
    ensures forall k :: 0 <= k < |PASSES| ==> OfReferences(PASSES[k])
  {
    NamedPassesOfReferences();
    assert PASSES[6] == Numeric("&#x", true) && PASSES[7] == Numeric("&#", false);
  }

  lemma MatchIsReference(p: Pass, s: string, i: nat)
    requires OfReferences(p) && i < |s|
    ensures MatchLength(p, s[i..]) > 0 ==> s[i] == '&' && IsReference(s[i + 1..])
  {
    var t := s[i..];
    assert t[1..] == s[i + 1..];
    if MatchLength(p, t) > 0 {
      match p
      case Named(_, _) => NamedIsReference(p, t);
      case Numeric(prefix, hex) => NumericIsReference(prefix, hex, t);
    }
  }

  ghost predicate HasReference(s: string) { exists i :: 0 <= i < |s| && s[i] == '&' && IsReference(s[i + 1..]) }

  // In particular every text with nothing shaped like a reference comes back.
  lemma ReferenceFreeRoundTrip(from: FromDigits, s: string)
    requires !HasReference(s)
    ensures DecodeHtmlEntities(from, EscapeForCode(s)) == s
  {
    RoundTripIff(from, s);
    PassesOfReferences();
    forall k | 0 <= k < |PASSES| ensures !Matches(PASSES[k], s) {
      forall i | 0 <= i < |s| ensures MatchLength(PASSES[k], s[i..]) == 0 {
        MatchIsReference(PASSES[k], s, i);
      }
    }
  }
}
