/** Masking secrets in log lines (internal/mask/mask.go). */
module Mask {
  import opened Model

  const MASK := "***"
  const MARKER := "::add-mask::"

  // ---- strings ----

  /** `t` occurs in `s` at position `a`. */
  predicate OccursAt(s: string, t: string, a: nat) { a <= |s| && t <= s[a..] }

  ghost predicate Occurs(s: string, t: string) { exists a: nat :: OccursAt(s, t, a) }

  /** `strings.ReplaceAll` with the mask: leftmost, non-overlapping. */
  function ReplaceAll(s: string, secret: string): string
    requires secret != ""
  {
    if s == "" then ""
    else if secret <= s then MASK + ReplaceAll(s[|secret|..], secret)
    else [s[0]] + ReplaceAll(s[1..], secret)
  }

  predicate IsSpace(c: char) {
    c in "\t\n\U{0B}\U{0C}\r \U{85}\U{A0}\U{1680}\U{2028}\U{2029}\U{202F}\U{205F}\U{3000}" || '\U{2000}' <= c <= '\U{200A}'
  }

  function TrimLeft(s: string): string { if s != "" && IsSpace(s[0]) then TrimLeft(s[1..]) else s }

  function TrimRight(s: string): string { if s != "" && IsSpace(s[|s| - 1]) then TrimRight(s[..|s| - 1]) else s }

  /** `strings.TrimSpace`. */
  function TrimSpace(s: string): string { TrimRight(TrimLeft(s)) }

  /** Trimming cuts off white space only, and all of it. */
  lemma {:induction false} TrimLeftCuts(s: string)
    ensures var t := TrimLeft(s);
            && |t| <= |s| && t == s[|s| - |t|..]
            && (forall k | 0 <= k < |s| - |t| :: IsSpace(s[k]))
            && (t != "" ==> !IsSpace(t[0]))
  {
    if s != "" && IsSpace(s[0]) { TrimLeftCuts(s[1..]); }
  }

  lemma {:induction false} TrimRightCuts(s: string)
    ensures var t := TrimRight(s);
            && t <= s
            && (forall k | |t| <= k < |s| :: IsSpace(s[k]))
            && (t != "" ==> !IsSpace(t[|t| - 1]))
  {
    if s != "" && IsSpace(s[|s| - 1]) { TrimRightCuts(s[..|s| - 1]); }
  }

  lemma TrimIdempotent(s: string)
    ensures TrimSpace(TrimSpace(s)) == TrimSpace(s)
  {
    TrimLeftCuts(s);
    TrimRightCuts(TrimLeft(s));
    var trimmed := TrimSpace(s);
    if trimmed != "" { assert trimmed[0] == TrimLeft(s)[0]; }
    assert TrimLeft(trimmed) == trimmed;
  }

  // ---- which secrets a mask of stars can hide ----

  /** No star at the end and no three stars in a row: it begins no text that begins with a mask. */
  predicate Firm(s: string) {
    && (s != "" ==> s[|s| - 1] != '*')
    && forall k | 0 <= k < |s| - 2 :: s[k] != '*' || s[k + 1] != '*' || s[k + 2] != '*'
  }

  /** No star at either end and no three in a row; every secret without stars is solid. */
  predicate Solid(s: string) { s != "" && s[0] != '*' && Firm(s) }

  /** Solid, or the mask itself, which replacing does not change. */
  predicate Plain(s: string) { Solid(s) || s == MASK }

  lemma FirmTail(s: string)
    requires Firm(s) && s != ""
    ensures Firm(s[1..])
  {
    forall k | 0 <= k < |s[1..]| - 2 ensures s[1..][k] != '*' || s[1..][k + 1] != '*' || s[1..][k + 2] != '*' {
      assert s[k + 1] != '*' || s[k + 1 + 1] != '*' || s[k + 1 + 2] != '*';
    }
  }

  /** What begins like a mask is not firm. */
  lemma MaskNotFirm(t: string, rest: string)
    requires t != "" && t <= MASK + rest
    ensures !Firm(t)
  {
    var text := MASK + rest;
    if |t| >= 3 {
      assert t[0] == text[0] && t[0 + 1] == text[1] && t[0 + 2] == text[2];
    } else {
      assert t[|t| - 1] == text[|t| - 1];
    }
  }

  // ---- masked text as tokens ----

  /** A character that is still shown, or an occurrence of a secret that is hidden. */
  datatype Token = Shown(c: char) | Hidden(secret: string)

  /** The text before masking. */
  function Original(tokens: seq<Token>): string {
    if tokens == [] then ""
    else (match tokens[0] case Shown(c) => [c] case Hidden(secret) => secret) + Original(tokens[1..])
  }

  /** The text after masking. */
  function Masked(tokens: seq<Token>): string {
    if tokens == [] then ""
    else (match tokens[0] case Shown(c) => [c] case Hidden(_) => MASK) + Masked(tokens[1..])
  }

  function Tokens(s: string): seq<Token> { seq(|s|, k requires 0 <= k < |s| => Shown(s[k])) }

  /** The tokens begin with shown characters that spell `secret`. */
  predicate Spells(tokens: seq<Token>, secret: string) {
    |secret| <= |tokens| && forall k | 0 <= k < |secret| :: tokens[k] == Shown(secret[k])
  }

  /** `ReplaceAll` on tokens. */
  function Hide(tokens: seq<Token>, secret: string): seq<Token>
    requires secret != ""
  {
    if tokens == [] then []
    else if Spells(tokens, secret) then [Hidden(secret)] + Hide(tokens[|secret|..], secret)
    else [tokens[0]] + Hide(tokens[1..], secret)
  }

  lemma {:induction false} TokensAre(s: string)
    ensures Original(Tokens(s)) == s && Masked(Tokens(s)) == s
  {
    if s != "" {
      TokensAre(s[1..]);
      assert Tokens(s)[1..] == Tokens(s[1..]);
    }
  }

  lemma {:induction false} SpellsText(tokens: seq<Token>, secret: string)
    requires Spells(tokens, secret)
    ensures Original(tokens) == secret + Original(tokens[|secret|..])
    ensures Masked(tokens) == secret + Masked(tokens[|secret|..])
  {
    if secret != "" {
      var rest := tokens[|secret|..];
      SpellsText(tokens[1..], secret[1..]);
      assert tokens[1..][|secret[1..]|..] == rest && tokens[0] == Shown(secret[0]);
      assert secret == [secret[0]] + secret[1..];
      assert [secret[0]] + (secret[1..] + Original(rest)) == secret + Original(rest);
      assert [secret[0]] + (secret[1..] + Masked(rest)) == secret + Masked(rest);
    }
  }

  /** Nothing is hidden yet. */
  ghost predicate AllShown(tokens: seq<Token>) { forall k | 0 <= k < |tokens| :: tokens[k].Shown? }

  /** A firm text, or any text where nothing is hidden, begins what is shown only if shown characters spell it. */
  lemma {:induction false} PrefixIsSpelled(tokens: seq<Token>, secret: string)
    requires (Firm(secret) || AllShown(tokens)) && secret <= Masked(tokens)
    ensures Spells(tokens, secret)
  {
    if secret != "" {
      assert secret[0] == Masked(tokens)[0];
      if tokens[0].Hidden? { MaskNotFirm(secret, Masked(tokens[1..])); }
      assert Masked(tokens)[1..] == Masked(tokens[1..]);
      assert secret[1..] <= Masked(tokens)[1..];
      if Firm(secret) { FirmTail(secret); }
      PrefixIsSpelled(tokens[1..], secret[1..]);
    }
  }

  /** A secret that begins with another character than a star begins at no position inside a mask. */
  lemma SkipMask(rest: string, secret: string)
    requires secret != "" && secret[0] != '*'
    ensures ReplaceAll(MASK + rest, secret) == MASK + ReplaceAll(rest, secret)
  {
    assert (MASK + rest)[1..] == "**" + rest && ("**" + rest)[1..] == "*" + rest && ("*" + rest)[1..] == rest;
    assert ReplaceAll("*" + rest, secret) == "*" + ReplaceAll(rest, secret);
    assert ReplaceAll("**" + rest, secret) == "*" + ReplaceAll("*" + rest, secret);
    assert ReplaceAll(MASK + rest, secret) == "*" + ReplaceAll("**" + rest, secret);
  }

  /** Hiding a solid secret, or any secret where nothing is hidden, is replacing it in what is shown. */
  lemma {:induction false} HideIsReplaceAll(tokens: seq<Token>, secret: string)
    requires secret != "" && (Solid(secret) || AllShown(tokens))
    ensures Masked(Hide(tokens, secret)) == ReplaceAll(Masked(tokens), secret)
    decreases |tokens|
  {
    if tokens == [] {
    } else if Spells(tokens, secret) {
      var rest := tokens[|secret|..];
      HideIsReplaceAll(rest, secret);
      SpellsText(tokens, secret);
      assert (secret + Masked(rest))[|secret|..] == Masked(rest);
      assert Masked([Hidden(secret)] + Hide(rest, secret)) == MASK + Masked(Hide(rest, secret));
    } else {
      HideIsReplaceAll(tokens[1..], secret);
      assert ([tokens[0]] + Hide(tokens[1..], secret))[1..] == Hide(tokens[1..], secret);
      match tokens[0]
      case Shown(c) =>
        if secret <= Masked(tokens) { PrefixIsSpelled(tokens, secret); }
        assert Masked(tokens)[1..] == Masked(tokens[1..]);
      case Hidden(_) =>
        SkipMask(Masked(tokens[1..]), secret);
    }
  }

  /** Hiding the mask under itself shows the same. */
  lemma {:induction false} HideMask(tokens: seq<Token>)
    ensures Masked(Hide(tokens, MASK)) == ReplaceAll(Masked(tokens), MASK)
    decreases |tokens|
  {
    MaskIsKept(Masked(tokens));
    if tokens == [] {
    } else if Spells(tokens, MASK) {
      HideMask(tokens[3..]);
      MaskIsKept(Masked(tokens[3..]));
      SpellsText(tokens, MASK);
      assert ([Hidden(MASK)] + Hide(tokens[3..], MASK))[1..] == Hide(tokens[3..], MASK);
    } else {
      HideMask(tokens[1..]);
      MaskIsKept(Masked(tokens[1..]));
      assert ([tokens[0]] + Hide(tokens[1..], MASK))[1..] == Hide(tokens[1..], MASK);
    }
  }

  lemma {:induction false} MaskIsKept(text: string)
    ensures ReplaceAll(text, MASK) == text
    decreases |text|
  {
    if text == "" {
    } else if MASK <= text {
      MaskIsKept(text[3..]);
      assert text == MASK + text[3..];
    } else {
      MaskIsKept(text[1..]);
    }
  }

  lemma {:induction false} HideOriginal(tokens: seq<Token>, secret: string)
    requires secret != ""
    ensures Original(Hide(tokens, secret)) == Original(tokens)
    decreases |tokens|
  {
    if tokens == [] {
    } else if Spells(tokens, secret) {
      HideOriginal(tokens[|secret|..], secret);
      SpellsText(tokens, secret);
    } else {
      HideOriginal(tokens[1..], secret);
    }
  }

  // ---- no run of shown characters spells a secret that has been hidden ----

  ghost predicate NoRun(tokens: seq<Token>, secret: string) {
    tokens == [] || (!Spells(tokens, secret) && NoRun(tokens[1..], secret))
  }

  /** Hiding only breaks runs up: what is spelled afterwards was spelled before. */
  lemma {:induction false} SpelledBefore(tokens: seq<Token>, hidden: string, secret: string)
    requires hidden != "" && Spells(Hide(tokens, hidden), secret)
    ensures Spells(tokens, secret)
  {
    if secret != "" {
      assert Hide(tokens, hidden)[0] == Shown(secret[0]);
      assert Hide(tokens, hidden)[1..] == Hide(tokens[1..], hidden);
      SpelledBefore(tokens[1..], hidden, secret[1..]);
    }
  }

  lemma NoRunCons(head: Token, rest: seq<Token>, secret: string)
    requires NoRun(rest, secret) && !Spells([head] + rest, secret)
    ensures NoRun([head] + rest, secret)
  {
    assert ([head] + rest)[1..] == rest;
  }

  lemma {:induction false} HideNoRun(tokens: seq<Token>, secret: string)
    requires secret != ""
    ensures NoRun(Hide(tokens, secret), secret)
    decreases |tokens|
  {
    if tokens == [] {
    } else if Spells(tokens, secret) {
      HideNoRun(tokens[|secret|..], secret);
      assert ([Hidden(secret)] + Hide(tokens[|secret|..], secret))[0] != Shown(secret[0]);
      NoRunCons(Hidden(secret), Hide(tokens[|secret|..], secret), secret);
    } else {
      HideNoRun(tokens[1..], secret);
      assert Hide(tokens, secret) == [tokens[0]] + Hide(tokens[1..], secret);
      if Spells([tokens[0]] + Hide(tokens[1..], secret), secret) { SpelledBefore(tokens, secret, secret); }
      NoRunCons(tokens[0], Hide(tokens[1..], secret), secret);
    }
  }

  // ---- hidden stretches of the original text ----

  /** Position `i` of the original text lies in a hidden secret of at least `length` characters. */
  ghost predicate Covered(tokens: seq<Token>, i: nat, length: nat) {
    tokens != [] &&
    match tokens[0]
    case Shown(_) => i > 0 && Covered(tokens[1..], i - 1, length)
    case Hidden(secret) => if i < |secret| then |secret| >= length else Covered(tokens[1..], i - |secret|, length)
  }

  ghost predicate HiddenAtLeast(tokens: seq<Token>, length: nat) {
    forall k | 0 <= k < |tokens| && tokens[k].Hidden? :: |tokens[k].secret| >= length
  }

  lemma {:induction false} CoveredSkip(tokens: seq<Token>, secret: string, i: nat, length: nat)
    requires Spells(tokens, secret) && Covered(tokens, i, length)
    ensures i >= |secret| && Covered(tokens[|secret|..], i - |secret|, length)
  {
    if secret != "" {
      assert tokens[0] == Shown(secret[0]);
      CoveredSkip(tokens[1..], secret[1..], i - 1, length);
      assert tokens[1..][|secret[1..]|..] == tokens[|secret|..];
    }
  }

  /** What is hidden stays hidden. */
  lemma {:induction false} HideKeepsCovered(tokens: seq<Token>, hidden: string, i: nat, length: nat)
    requires hidden != "" && Covered(tokens, i, length)
    ensures Covered(Hide(tokens, hidden), i, length)
    decreases |tokens|
  {
    if Spells(tokens, hidden) {
      CoveredSkip(tokens, hidden, i, length);
      var rest := Hide(tokens[|hidden|..], hidden);
      HideKeepsCovered(tokens[|hidden|..], hidden, i - |hidden|, length);
      assert ([Hidden(hidden)] + rest)[1..] == rest;
    } else {
      var rest := Hide(tokens[1..], hidden);
      assert ([tokens[0]] + rest)[1..] == rest;
      match tokens[0]
      case Shown(_) => HideKeepsCovered(tokens[1..], hidden, i - 1, length);
      case Hidden(secret) =>
        if i >= |secret| { HideKeepsCovered(tokens[1..], hidden, i - |secret|, length); }
    }
  }

  lemma {:induction false} HideHiddenAtLeast(tokens: seq<Token>, hidden: string, length: nat)
    requires hidden != "" && HiddenAtLeast(tokens, length) && |hidden| >= length
    ensures HiddenAtLeast(Hide(tokens, hidden), length)
    decreases |tokens|
  {
    if tokens == [] {
    } else if Spells(tokens, hidden) {
      HideHiddenAtLeast(tokens[|hidden|..], hidden, length);
    } else {
      HideHiddenAtLeast(tokens[1..], hidden, length);
    }
  }

  /** A beginning of the original text that is not all shown runs into a hidden secret. */
  lemma {:induction false} PrefixCovered(tokens: seq<Token>, secret: string, length: nat) returns (i: nat)
    requires length > 0 && HiddenAtLeast(tokens, length)
    requires secret <= Original(tokens) && !Spells(tokens, secret)
    ensures i < |secret| && Covered(tokens, i, length)
    decreases |tokens|
  {
    match tokens[0]
    case Hidden(_) => i := 0;
    case Shown(c) =>
      assert Original(tokens)[1..] == Original(tokens[1..]);
      assert secret[1..] <= Original(tokens)[1..];
      i := PrefixCovered(tokens[1..], secret[1..], length);
      i := i + 1;
  }

  /** Where no run spells the secret, each of its occurrences in the original text runs into a hidden one. */
  lemma {:induction false} OccurrenceCovered(tokens: seq<Token>, secret: string, a: nat) returns (i: nat)
    requires secret != "" && HiddenAtLeast(tokens, |secret|) && NoRun(tokens, secret)
    requires OccursAt(Original(tokens), secret, a)
    ensures a <= i < a + |secret| && Covered(tokens, i, |secret|)
    decreases |tokens|
  {
    var text := Original(tokens);
    match tokens[0]
    case Hidden(hidden) =>
      if a < |hidden| {
        i := a;
      } else {
        assert text[a..] == Original(tokens[1..])[a - |hidden|..];
        i := OccurrenceCovered(tokens[1..], secret, a - |hidden|);
        i := i + |hidden|;
      }
    case Shown(c) =>
      if a == 0 {
        i := PrefixCovered(tokens, secret, |secret|);
      } else {
        assert text[a..] == Original(tokens[1..])[a - 1..];
        i := OccurrenceCovered(tokens[1..], secret, a - 1);
        i := i + 1;
      }
  }

  // ---- the whole list of secrets ----

  /** Secrets are never empty, and longer ones come first. */
  ghost predicate LongestFirst(values: seq<string>) {
    && (forall k | 0 <= k < |values| :: values[k] != "")
    && (forall k, m | 0 <= k < m < |values| :: |values[k]| >= |values[m]|)
  }

  ghost predicate AllPlain(values: seq<string>) {
    forall k | 0 <= k < |values| :: Plain(values[k])
  }

  /** One replacement after the other, in list order. */
  function ReplaceEach(text: string, values: seq<string>): string
    requires forall k | 0 <= k < |values| :: values[k] != ""
    decreases |values|
  {
    if values == [] then text else ReplaceEach(ReplaceAll(text, values[0]), values[1..])
  }

  function HideEach(tokens: seq<Token>, values: seq<string>): seq<Token>
    requires forall k | 0 <= k < |values| :: values[k] != ""
    decreases |values|
  {
    if values == [] then tokens else HideEach(Hide(tokens, values[0]), values[1..])
  }

  lemma {:induction false} HideEachIsReplaceEach(tokens: seq<Token>, values: seq<string>)
    requires forall k | 0 <= k < |values| :: values[k] != ""
    requires values == [] || (AllPlain(values[1..]) && (Plain(values[0]) || AllShown(tokens)))
    ensures Masked(HideEach(tokens, values)) == ReplaceEach(Masked(tokens), values)
    ensures Original(HideEach(tokens, values)) == Original(tokens)
    decreases |values|
  {
    if values != [] {
      if values[0] == MASK { HideMask(tokens); } else { HideIsReplaceAll(tokens, values[0]); }
      HideOriginal(tokens, values[0]);
      if |values| > 1 { assert AllPlain(values[1..][1..]); }
      HideEachIsReplaceEach(Hide(tokens, values[0]), values[1..]);
    }
  }

  lemma {:induction false} HideEachKeepsCovered(tokens: seq<Token>, values: seq<string>, i: nat, length: nat)
    requires forall k | 0 <= k < |values| :: values[k] != ""
    requires Covered(tokens, i, length)
    ensures Covered(HideEach(tokens, values), i, length)
    decreases |values|
  {
    if values != [] {
      HideKeepsCovered(tokens, values[0], i, length);
      HideEachKeepsCovered(Hide(tokens, values[0]), values[1..], i, length);
    }
  }

  lemma {:induction false} HideEachCovers(tokens: seq<Token>, values: seq<string>, secret: string, a: nat) returns (i: nat)
    requires LongestFirst(values) && secret in values && HiddenAtLeast(tokens, |values[0]|)
    requires OccursAt(Original(tokens), secret, a)
    ensures a <= i < a + |secret| && Covered(HideEach(tokens, values), i, |secret|)
    decreases |values|
  {
    var next, rest := Hide(tokens, values[0]), values[1..];
    HideHiddenAtLeast(tokens, values[0], |values[0]|);
    HideOriginal(tokens, values[0]);
    if values[0] == secret {
      HideNoRun(tokens, secret);
      i := OccurrenceCovered(next, secret, a);
      HideEachKeepsCovered(next, rest, i, |secret|);
    } else {
      assert secret in rest;
      i := HideEachCovers(next, rest, secret, a);
    }
  }

  lemma {:induction false} HideEachHeld(tokens: seq<Token>, values: seq<string>, k: nat)
    requires forall m | 0 <= m < |values| :: values[m] != ""
    requires k < |HideEach(tokens, values)| && HideEach(tokens, values)[k].Hidden?
    ensures HideEach(tokens, values)[k].secret in values || HideEach(tokens, values)[k] in tokens
    decreases |values|
  {
    if values != [] {
      HideEachHeld(Hide(tokens, values[0]), values[1..], k);
      var token := HideEach(tokens, values)[k];
      if token in Hide(tokens, values[0]) { HideHeld(tokens, values[0], token); }
    }
  }

  lemma {:induction false} HideHeld(tokens: seq<Token>, hidden: string, token: Token)
    requires hidden != "" && token in Hide(tokens, hidden)
    ensures token == Hidden(hidden) || token in tokens
    decreases |tokens|
  {
    if tokens == [] {
    } else if Spells(tokens, hidden) {
      if token != Hidden(hidden) { HideHeld(tokens[|hidden|..], hidden, token); }
    } else if token != tokens[0] {
      HideHeld(tokens[1..], hidden, token);
    }
  }

  // ---- what masking guarantees ----

  /**
   `tokens` is a division of `text` into shown characters and hidden secrets, all of them held, such
   that every occurrence of a held secret in `text` runs into a hidden one that is at least as long.
   */
  ghost predicate Masks(values: seq<string>, text: string, tokens: seq<Token>) {
    && Original(tokens) == text
    && (forall k | 0 <= k < |tokens| && tokens[k].Hidden? :: tokens[k].secret in values)
    && (forall k, a: nat | 0 <= k < |values| && OccursAt(text, values[k], a) ::
          exists i: nat | a <= i < a + |values[k]| :: Covered(tokens, i, |values[k]|))
  }

  /**
   Masking changes nothing but held secrets, and longer secrets take precedence over shorter ones. The
   longest secret may have stars anywhere: it is replaced before there are masks.
   */
  lemma MaskingIsLongestFirst(values: seq<string>, text: string)
    requires LongestFirst(values) && (values == [] || AllPlain(values[1..]))
    ensures exists tokens :: Masks(values, text, tokens) && Masked(tokens) == ReplaceEach(text, values)
  {
    var plain := Tokens(text);
    var tokens := HideEach(plain, values);
    TokensAre(text);
    HideEachIsReplaceEach(plain, values);
    forall k | 0 <= k < |tokens| && tokens[k].Hidden? ensures tokens[k].secret in values {
      HideEachHeld(plain, values, k);
    }
    forall k, a: nat | 0 <= k < |values| && OccursAt(text, values[k], a)
      ensures exists i: nat | a <= i < a + |values[k]| :: Covered(tokens, i, |values[k]|)
    {
      var i := HideEachCovers(plain, values, values[k], a);
    }
    assert Masks(values, text, tokens);
  }

  // ---- no secret survives ----

  /** Replacement only breaks text up: a firm beginning of the result was there before. */
  lemma {:induction false} BeginningSurvives(s: string, hidden: string, t: string)
    requires hidden != "" && Firm(t) && t <= ReplaceAll(s, hidden)
    ensures t <= s
  {
    if t != "" {
      if hidden <= s { MaskNotFirm(t, ReplaceAll(s[|hidden|..], hidden)); }
      assert t[0] == ReplaceAll(s, hidden)[0];
      assert ReplaceAll(s, hidden)[1..] == ReplaceAll(s[1..], hidden);
      assert t[1..] <= ReplaceAll(s, hidden)[1..];
      FirmTail(t);
      BeginningSurvives(s[1..], hidden, t[1..]);
    }
  }

  lemma NotInMask(rest: string, t: string, a: nat)
    requires t != "" && t[0] != '*' && a < 3
    ensures !OccursAt(MASK + rest, t, a)
  {
    assert (MASK + rest)[a..][0] == '*';
  }

  lemma OccursBehind(front: string, rest: string, t: string, a: nat)
    ensures OccursAt(front + rest, t, |front| + a) <==> OccursAt(rest, t, a)
  {
    if a <= |rest| { assert (front + rest)[|front| + a..] == rest[a..]; }
  }

  /** Where an occurrence in replaced text continues, behind a mask or behind a character. */
  lemma BehindMask(s: string, hidden: string, t: string, a: nat)
    requires hidden != "" && Solid(t) && hidden <= s && OccursAt(ReplaceAll(s, hidden), t, a)
    ensures a >= 3 && OccursAt(ReplaceAll(s[|hidden|..], hidden), t, a - 3)
  {
    var rest := ReplaceAll(s[|hidden|..], hidden);
    if a < 3 {
      NotInMask(rest, t, a);
    } else {
      OccursBehind(MASK, rest, t, a - 3);
    }
  }

  lemma BehindHead(s: string, hidden: string, t: string, a: nat)
    requires hidden != "" && s != "" && !(hidden <= s) && a > 0 && OccursAt(ReplaceAll(s, hidden), t, a)
    ensures OccursAt(ReplaceAll(s[1..], hidden), t, a - 1)
  {
    OccursBehind([s[0]], ReplaceAll(s[1..], hidden), t, a - 1);
  }

  lemma OccursLater(s: string, t: string, n: nat, b: nat)
    requires n <= |s| && OccursAt(s[n..], t, b)
    ensures OccursAt(s, t, n + b)
  {
    assert s[n..][b..] == s[n + b..];
  }

  /** No replacement makes a solid text appear that was not there, whatever it replaces. */
  lemma {:induction false} NeverCreated(s: string, hidden: string, t: string, a: nat) returns (b: nat)
    requires hidden != "" && Solid(t) && OccursAt(ReplaceAll(s, hidden), t, a)
    ensures OccursAt(s, t, b)
    decreases |s|
  {
    if a == 0 {
      BeginningSurvives(s, hidden, t);
      b := 0;
    } else if hidden <= s {
      BehindMask(s, hidden, t, a);
      b := NeverCreated(s[|hidden|..], hidden, t, a - 3);
      OccursLater(s, t, |hidden|, b);
      b := |hidden| + b;
    } else {
      BehindHead(s, hidden, t, a);
      b := NeverCreated(s[1..], hidden, t, a - 1);
      OccursLater(s, t, 1, b);
      b := 1 + b;
    }
  }

  /** Replacing a solid secret leaves no occurrence of it. */
  lemma {:induction false} ReplacedIsGone(s: string, t: string, a: nat)
    requires Solid(t)
    ensures !OccursAt(ReplaceAll(s, t), t, a)
    decreases |s|
  {
    if OccursAt(ReplaceAll(s, t), t, a) {
      if t <= s {
        BehindMask(s, t, t, a);
        ReplacedIsGone(s[|t|..], t, a - 3);
      } else if a == 0 {
        BeginningSurvives(s, t, t);
      } else {
        BehindHead(s, t, t, a);
        ReplacedIsGone(s[1..], t, a - 1);
      }
    }
  }

  lemma {:induction false} StaysAway(values: seq<string>, text: string, t: string)
    requires forall m | 0 <= m < |values| :: values[m] != ""
    requires Solid(t) && !Occurs(text, t)
    ensures !Occurs(ReplaceEach(text, values), t)
    decreases |values|
  {
    if values != [] {
      if Occurs(ReplaceAll(text, values[0]), t) {
        var a: nat :| OccursAt(ReplaceAll(text, values[0]), t, a);
        var b := NeverCreated(text, values[0], t, a);
      }
      StaysAway(values[1..], ReplaceAll(text, values[0]), t);
    }
  }

  /**
   No held solid secret occurs in masked text, whatever the other secrets and their order: a later
   replacement never recreates an earlier secret.
   */
  lemma {:induction false} MaskingComplete(values: seq<string>, text: string, secret: string)
    requires forall m | 0 <= m < |values| :: values[m] != ""
    requires secret in values && Solid(secret)
    ensures !Occurs(ReplaceEach(text, values), secret)
    decreases |values|
  {
    var next := ReplaceAll(text, values[0]);
    if values[0] == secret {
      forall a: nat ensures !OccursAt(next, secret, a) {
        ReplacedIsGone(text, secret, a);
      }
      StaysAway(values[1..], next, secret);
    } else {
      MaskingComplete(values[1..], next, secret);
    }
  }

  lemma {:induction false} ReplaceAllAbsent(text: string, secret: string)
    requires secret != "" && !Occurs(text, secret)
    ensures ReplaceAll(text, secret) == text
  {
    if text != "" {
      assert !OccursAt(text, secret, 0);
      forall a: nat ensures !OccursAt(text[1..], secret, a) {
        assert !OccursAt(text, secret, a + 1);
        if a <= |text| - 1 { assert text[1..][a..] == text[a + 1..]; }
      }
      ReplaceAllAbsent(text[1..], secret);
    }
  }

  lemma {:induction false} ReplaceEachAbsent(text: string, values: seq<string>)
    requires forall k | 0 <= k < |values| :: values[k] != "" && (!Occurs(text, values[k]) || values[k] == MASK)
    ensures ReplaceEach(text, values) == text
    decreases |values|
  {
    if values != [] {
      if values[0] == MASK { MaskIsKept(text); } else { ReplaceAllAbsent(text, values[0]); }
      ReplaceEachAbsent(text, values[1..]);
    }
  }

  /** Masking masked text changes nothing. */
  lemma MaskingIdempotent(values: seq<string>, text: string)
    requires AllPlain(values)
    ensures ReplaceEach(ReplaceEach(text, values), values) == ReplaceEach(text, values)
  {
    forall k | 0 <= k < |values| ensures !Occurs(ReplaceEach(text, values), values[k]) || values[k] == MASK {
      if values[k] != MASK { MaskingComplete(values, text, values[k]); }
    }
    ReplaceEachAbsent(ReplaceEach(text, values), values);
  }

  // ---- exactly which secrets are hidden ----

  lemma HeadIsKept(c: char, text: string, secret: string)
    requires secret != "" && !(secret <= [c] + text)
    ensures ReplaceAll([c] + text, secret) == [c] + ReplaceAll(text, secret)
  {
    assert ([c] + text)[1..] == text;
  }

  /** Characters at which the secret does not match are kept. */
  lemma {:induction false} GapIsKept(gap: string, text: string, secret: string)
    requires secret != "" && forall k | 0 <= k < |gap| :: !(secret <= gap[k..] + text)
    ensures ReplaceAll(gap + text, secret) == gap + ReplaceAll(text, secret)
  {
    if gap == "" {
      assert gap + text == text;
    } else {
      var c, behind := gap[0], gap[1..];
      assert gap == [c] + behind && gap[0..] == gap;
      assert gap + text == [c] + (behind + text);
      forall k | 0 <= k < |behind| ensures !(secret <= behind[k..] + text) {
        assert behind[k..] == gap[k + 1..];
      }
      GapIsKept(behind, text, secret);
      HeadIsKept(c, behind + text, secret);
      assert [c] + (behind + ReplaceAll(text, secret)) == gap + ReplaceAll(text, secret);
    }
  }

  /** Replacing hides the first occurrence and goes on behind it; a text without one is kept (`ReplaceAllAbsent`). */
  lemma FirstIsHidden(text: string, secret: string, a: nat)
    requires secret != "" && OccursAt(text, secret, a) && forall b: nat | b < a :: !OccursAt(text, secret, b)
    ensures a + |secret| <= |text| && ReplaceAll(text, secret) == text[..a] + ("***" + ReplaceAll(text[a + |secret|..], secret))
  {
    var gap, rest := text[..a], text[a..];
    assert text == gap + rest && rest[|secret|..] == text[a + |secret|..];
    forall k | 0 <= k < |gap| ensures !(secret <= gap[k..] + rest) {
      assert gap[k..] + rest == text[k..] && !OccursAt(text, secret, k);
    }
    GapIsKept(gap, rest, secret);
  }

  lemma EarlyMatch(front: string, k: nat, secret: string, rest: string)
    requires k < |front| < |secret| && front <= secret && secret <= front[k..] + (secret + rest)
    ensures secret[0] == secret[|front|]
  {
    var text := front[k..] + (secret + rest);
    assert text[0] == secret[k] && text[|front|] == secret[k];
  }

  /** A secret is replaced where it first occurs if it starts with no star and a star follows its part `front`. */
  lemma FirstAtFront(front: string, secret: string, rest: string)
    requires |front| < |secret| && front <= secret && secret[0] != '*' && secret[|front|] == '*'
    ensures ReplaceAll(front + (secret + rest), secret) == front + (MASK + ReplaceAll(rest, secret))
  {
    forall k | 0 <= k < |front| ensures !(secret <= front[k..] + (secret + rest)) {
      if secret <= front[k..] + (secret + rest) { EarlyMatch(front, k, secret, rest); }
    }
    GapIsKept(front, secret + rest, secret);
    assert (secret + rest)[|secret|..] == rest;
  }

  lemma {:induction false} ShorterIsKept(text: string, secret: string)
    requires |text| < |secret|
    ensures ReplaceAll(text, secret) == text
  {
    if text != "" { ShorterIsKept(text[1..], secret); }
  }

  /** A text that shows the secret although it is masked. */
  function Leak(secret: string): string
    requires secret != "" && !Solid(secret)
  {
    if secret[0] == '*' then secret + secret[1..]
    else if secret[|secret| - 1] == '*' then secret[..|secret| - 1] + secret
    else var k := Triple(secret, 0); secret[..k] + secret + secret[k + 3..]
  }

  /** Where three stars in a row begin. */
  function Triple(s: string, from: nat): (k: nat)
    requires exists m :: from <= m < |s| - 2 && s[m] == s[m + 1] == s[m + 2] == '*'
    ensures from <= k < |s| - 2 && s[k] == s[k + 1] == s[k + 2] == '*'
    decreases |s| - from
  {
    if s[from] == s[from + 1] == s[from + 2] == '*' then from else Triple(s, from + 1)
  }

  lemma AtFront(secret: string, rest: string)
    requires secret != ""
    ensures ReplaceAll(secret + rest, secret) == MASK + ReplaceAll(rest, secret)
  {
    assert (secret + rest)[|secret|..] == rest;
  }

  lemma LeadingStarLeaks(secret: string)
    requires secret != "" && secret[0] == '*'
    ensures Occurs(ReplaceAll(secret + secret[1..], secret), secret)
  {
    var rest := secret[1..];
    var text := secret + rest;
    ShorterIsKept(rest, secret);
    AtFront(secret, rest);
    assert "*" + rest == secret;
    assert (MASK + rest)[2..] == "*" + rest;
    assert OccursAt(MASK + rest, secret, 2);
  }

  lemma FinalStarLeaks(front: string)
    requires front != "" && front[0] != '*'
    ensures Occurs(ReplaceAll(front + (front + "*"), front + "*"), front + "*")
  {
    var secret := front + "*";
    FirstAtFront(front, secret, "");
    assert secret + "" == secret;
    assert front + (MASK + "") == secret + "**";
    assert OccursAt(secret + "**", secret, 0);
  }

  lemma TripleStarLeaks(front: string, rest: string)
    requires front != "" && front[0] != '*'
    ensures Occurs(ReplaceAll(front + (front + MASK + rest) + rest, front + MASK + rest), front + MASK + rest)
  {
    var secret := front + MASK + rest;
    FirstAtFront(front, secret, rest);
    ShorterIsKept(rest, secret);
    assert front + (secret + rest) == front + secret + rest;
    assert front + (MASK + rest) == secret;
    assert OccursAt(secret, secret, 0);
  }

  lemma LeakShows(secret: string)
    requires secret != "" && !Solid(secret)
    ensures Occurs(ReplaceAll(Leak(secret), secret), secret)
  {
    var last := |secret| - 1;
    if secret[0] == '*' {
      LeadingStarLeaks(secret);
    } else if secret[last] == '*' {
      assert secret == secret[..last] + "*";
      FinalStarLeaks(secret[..last]);
    } else {
      var k := Triple(secret, 0);
      assert secret == secret[..k] + MASK + secret[k + 3..];
      TripleStarLeaks(secret[..k], secret[k + 3..]);
    }
  }

  /** For example, a secret of stars survives its own mask, and masking it again changes the text again. */
  lemma StarsSurvive()
    ensures Occurs(ReplaceEach("**", ["**"]), "**")
    ensures ReplaceEach(ReplaceEach("**", ["**"]), ["**"]) != ReplaceEach("**", ["**"])
  {
    var values := ["**"];
    assert values[1..] == [];
    assert "**"[2..] == "" && ReplaceAll("**", "**") == MASK + "";
    assert MASK[2..] == "*" && "*"[1..] == "";
    assert ReplaceAll("*", "**") == "*" + ReplaceAll("", "**");
    assert ReplaceAll(MASK, "**") == MASK + "*";
    assert ReplaceEach("**", values) == MASK && ReplaceEach(MASK, values) == MASK + "*";
    assert OccursAt(MASK, "**", 0);
  }

  /** Held alone, the secret never shows in masked text. */
  ghost predicate HiddenAlone(secret: string)
    requires secret != ""
  {
    forall text :: !Occurs(ReplaceAll(text, secret), secret)
  }

  lemma SolidIsHidden(text: string, secret: string)
    requires Solid(secret)
    ensures !Occurs(ReplaceAll(text, secret), secret)
  {
    forall a: nat ensures !OccursAt(ReplaceAll(text, secret), secret, a) {
      ReplacedIsGone(text, secret, a);
    }
  }

  /** A secret held alone never shows in masked text, whatever the text, exactly if it is solid. */
  lemma HiddenExactly(secret: string)
    requires secret != ""
    ensures HiddenAlone(secret) <==> Solid(secret)
  {
    if Solid(secret) {
      forall text ensures !Occurs(ReplaceAll(text, secret), secret) {
        SolidIsHidden(text, secret);
      }
    } else {
      LeakShows(secret);
    }
  }

  /** Masking with `values` never shows the secret. */
  ghost predicate Hides(values: seq<string>, secret: string)
    requires forall m | 0 <= m < |values| :: values[m] != ""
  {
    forall text :: !Occurs(ReplaceEach(text, values), secret)
  }

  /** And so for lists: every list that holds the secret hides it exactly if it is solid. */
  lemma HiddenByAllExactly(secret: string)
    requires secret != ""
    ensures (forall values: seq<string> | secret in values && (forall m | 0 <= m < |values| :: values[m] != "") :: Hides(values, secret))
            <==> Solid(secret)
  {
    if Solid(secret) {
      forall values: seq<string> | secret in values && (forall m | 0 <= m < |values| :: values[m] != "") ensures Hides(values, secret) {
        forall text ensures !Occurs(ReplaceEach(text, values), secret) {
          MaskingComplete(values, text, secret);
        }
      }
    } else {
      LeakShows(secret);
      OneValue(Leak(secret), secret);
      assert !Hides([secret], secret);
    }
  }

  lemma OneValue(text: string, secret: string)
    requires secret != ""
    ensures ReplaceEach(text, [secret]) == ReplaceAll(text, secret)
  {
    assert [secret][1..] == [];
  }

  lemma {:induction false} ReplaceAllLength(text: string, secret: string)
    requires secret != ""
    ensures |secret| >= 3 ==> |ReplaceAll(text, secret)| <= |text|
    ensures |secret| <= 3 ==> |ReplaceAll(text, secret)| >= |text|
    decreases |text|
  {
    if text == "" {
    } else if secret <= text {
      ReplaceAllLength(text[|secret|..], secret);
    } else {
      ReplaceAllLength(text[1..], secret);
    }
  }

  /** Replacing an occurrence of anything but the mask itself changes the text. */
  lemma {:induction false} ReplacingChanges(text: string, secret: string, a: nat)
    requires secret != "" && secret != MASK && OccursAt(text, secret, a)
    ensures ReplaceAll(text, secret) != text
    decreases |text|
  {
    if secret <= text {
      var rest := text[|secret|..];
      ReplaceAllLength(rest, secret);
      if |secret| == 3 { assert (MASK + ReplaceAll(rest, secret))[..3] == MASK && text[..3] == secret; }
    } else {
      assert text == [text[0]] + text[1..];
      OccursBehind([text[0]], text[1..], secret, a - 1);
      ReplacingChanges(text[1..], secret, a - 1);
      assert ReplaceAll(text, secret)[1..] == ReplaceAll(text[1..], secret);
    }
  }

  ghost predicate IdempotentAlone(secret: string)
    requires secret != ""
  {
    forall text :: ReplaceAll(ReplaceAll(text, secret), secret) == ReplaceAll(text, secret)
  }

  lemma KeptOnce(text: string, secret: string)
    requires Plain(secret)
    ensures ReplaceAll(ReplaceAll(text, secret), secret) == ReplaceAll(text, secret)
  {
    if secret == MASK {
      MaskIsKept(text);
    } else {
      SolidIsHidden(text, secret);
      ReplaceAllAbsent(ReplaceAll(text, secret), secret);
    }
  }

  lemma LeakChanges(secret: string)
    requires secret != "" && !Plain(secret)
    ensures ReplaceAll(ReplaceAll(Leak(secret), secret), secret) != ReplaceAll(Leak(secret), secret)
  {
    LeakShows(secret);
    var a: nat :| OccursAt(ReplaceAll(Leak(secret), secret), secret, a);
    ReplacingChanges(ReplaceAll(Leak(secret), secret), secret, a);
  }

  /** Masking with one secret is idempotent exactly if the secret is solid, or is the mask itself. */
  lemma IdempotentExactly(secret: string)
    requires secret != ""
    ensures IdempotentAlone(secret) <==> Plain(secret)
  {
    if Plain(secret) {
      forall text ensures ReplaceAll(ReplaceAll(text, secret), secret) == ReplaceAll(text, secret) {
        KeptOnce(text, secret);
      }
    } else {
      LeakChanges(secret);
    }
  }

  ghost predicate Idempotent(values: seq<string>)
    requires forall m | 0 <= m < |values| :: values[m] != ""
  {
    forall text :: ReplaceEach(ReplaceEach(text, values), values) == ReplaceEach(text, values)
  }

  /** The secret, added to any list of secrets with which masking is fine, leaves masking idempotent exactly under the same condition. */
  lemma IdempotentInAllExactly(secret: string)
    requires secret != ""
    ensures (forall values | AllPlain(values) :: Idempotent([secret] + values)) <==> Plain(secret)
  {
    if Plain(secret) {
      forall values | AllPlain(values) ensures Idempotent([secret] + values) {
        assert AllPlain([secret] + values);
        forall text ensures ReplaceEach(ReplaceEach(text, [secret] + values), [secret] + values) == ReplaceEach(text, [secret] + values) {
          MaskingIdempotent([secret] + values, text);
        }
      }
    } else {
      AloneIsNotIdempotent(secret);
      assert AllPlain([]) && [secret] + [] == [secret];
    }
  }

  lemma AloneIsNotIdempotent(secret: string)
    requires secret != "" && !Plain(secret)
    ensures !Idempotent([secret])
  {
    LeakChanges(secret);
    var masked := ReplaceAll(Leak(secret), secret);
    OneValue(Leak(secret), secret);
    OneValue(masked, secret);
    assert ReplaceEach(ReplaceEach(Leak(secret), [secret]), [secret]) != ReplaceEach(Leak(secret), [secret]);
  }

  // ---- the masker ----

  /** `strings.Index`: the first position at which `t` occurs. */
  function Index(s: string, t: string): (a: Option<nat>)
    ensures a.Some? ==> OccursAt(s, t, a.value) && forall b: nat | b < a.value :: !OccursAt(s, t, b)
    ensures a.None? ==> !Occurs(s, t)
  {
    IndexFrom(s, t, 0)
  }

  function IndexFrom(s: string, t: string, from: nat): (a: Option<nat>)
    requires from <= |s|
    ensures a.Some? ==> from <= a.value && OccursAt(s, t, a.value) && forall b: nat | from <= b < a.value :: !OccursAt(s, t, b)
    ensures a.None? ==> forall b: nat | from <= b :: !OccursAt(s, t, b)
    decreases |s| - from
  {
    if t <= s[from..] then Some(from) else if from == |s| then None else IndexFrom(s, t, from + 1)
  }

  /** The value announced by an add-mask command in a log line. */
  function Announced(line: string): string {
    match Index(line, MARKER)
    case None => ""
    case Some(a) => TrimSpace(line[a + |MARKER|..])
  }

  /** What follows the first marker is announced, without the white space around it. */
  lemma AnnouncedMeans(line: string, a: nat)
    requires OccursAt(line, "::add-mask::", a) && forall b: nat | b < a :: !OccursAt(line, "::add-mask::", b)
    ensures a + 12 <= |line| && Announced(line) == TrimSpace(line[a + 12..])
  {
    assert Index(line, MARKER) == Some(a);
  }

  lemma {:induction false} TrimLeftSkips(front: string, rest: string)
    requires rest != "" && !IsSpace(rest[0]) && forall k | 0 <= k < |front| :: IsSpace(front[k])
    ensures TrimLeft(front + rest) == rest
  {
    if front == "" {
      assert front + rest == rest;
    } else {
      TrimLeftSkips(front[1..], rest);
      assert (front + rest)[1..] == front[1..] + rest;
    }
  }

  lemma {:induction false} TrimRightSkips(rest: string, back: string)
    requires rest != "" && !IsSpace(rest[|rest| - 1]) && forall k | 0 <= k < |back| :: IsSpace(back[k])
    ensures TrimRight(rest + back) == rest
  {
    var s := rest + back;
    if back == "" {
      assert s == rest;
    } else {
      TrimRightSkips(rest, back[..|back| - 1]);
      assert s[..|s| - 1] == rest + back[..|back| - 1];
    }
  }

  /** Trimming leaves what is between the white space at both ends. */
  lemma TrimMeans(front: string, middle: string, back: string)
    requires forall k | 0 <= k < |front| :: IsSpace(front[k])
    requires forall k | 0 <= k < |back| :: IsSpace(back[k])
    requires middle != "" && !IsSpace(middle[0]) && !IsSpace(middle[|middle| - 1])
    ensures TrimSpace(front + middle + back) == middle
  {
    assert front + middle + back == front + (middle + back);
    TrimLeftSkips(front, middle + back);
    TrimRightSkips(middle, back);
  }

  /** A new, non-empty value is added to the held ones; anything else leaves them as they are. */
  ghost predicate Added(before: seq<string>, after: seq<string>, value: string) {
    if value == "" || value in before then after == before
    else multiset(after) == multiset(before) + multiset{value}
  }

  class Masker {
    var values: seq<string>

    ghost predicate Valid()
      reads this
    {
      LongestFirst(values)
    }

    constructor ()
      ensures Valid() && values == []
    {
      values := [];
    }

    /** Adds a trimmed, non-empty, new value and restores the order by length. */
    method Add(value: string)
      requires Valid()
      modifies this
      ensures Valid()
      ensures Added(old(values), values, TrimSpace(value))
    {
      var trimmed := TrimSpace(value);
      if trimmed == "" {
        return;
      }
      for k := 0 to |values|
        invariant trimmed !in values[..k] && values == old(values)
      {
        if values[k] == trimmed {
          return;
        }
      }
      values := InsertByLength(values, trimmed);
    }

    /** Masks every held value in turn. */
    method Apply(value: string) returns (masked: string)
      requires Valid()
      ensures masked == ReplaceEach(value, values)
    {
      masked := value;
      var k := 0;
      while k < |values|
        invariant k <= |values|
        invariant ReplaceEach(masked, values[k..]) == ReplaceEach(value, values)
      {
        assert values[k..][1..] == values[k + 1..];
        masked := ReplaceAll(masked, values[k]);
        k := k + 1;
      }
    }

    /** Picks up a value announced in a log line. */
    method Observe(line: string)
      requires Valid()
      modifies this
      ensures Valid()
      ensures Added(old(values), values, TrimSpace(Announced(line)))
    {
      var index := Index(line, MARKER);
      if index.Some? {
        Add(TrimSpace(line[index.value + |MARKER|..]));
      } else {
        assert TrimSpace("") == "";
      }
    }
  }

  lemma InsertKeepsOrder(values: seq<string>, k: nat, value: string)
    requires LongestFirst(values) && value != "" && k <= |values|
    requires k == 0 || |values[k - 1]| >= |value|
    requires k == |values| || |value| > |values[k]|
    ensures LongestFirst(values[..k] + [value] + values[k..])
  {
    var sorted := values[..k] + [value] + values[k..];
    forall a, b | 0 <= a < b < |sorted| ensures |sorted[a]| >= |sorted[b]| {
      assert sorted[a] == if a < k then values[a] else if a == k then value else values[a - 1];
      assert sorted[b] == if b < k then values[b] else if b == k then value else values[b - 1];
    }
  }

  lemma InsertKeepsMembers(front: seq<string>, value: string, back: seq<string>)
    ensures multiset(front + [value] + back) == multiset(front + back) + multiset{value}
  {
  }

  /** Appending to a list ordered by length and sorting it; the order among equal lengths is free. */
  method InsertByLength(values: seq<string>, value: string) returns (sorted: seq<string>)
    requires LongestFirst(values) && value != ""
    ensures LongestFirst(sorted) && multiset(sorted) == multiset(values) + multiset{value}
  {
    var k: nat := |values|;
    while k > 0 && |value| > |values[k - 1]|
      invariant k <= |values| && (k == |values| || |value| > |values[k]|)
      decreases k
    {
      k := k - 1;
    }
    InsertKeepsOrder(values, k, value);
    InsertKeepsMembers(values[..k], value, values[k..]);
    assert values[..k] + values[k..] == values;
    sorted := values[..k] + [value] + values[k..];
  }
}
