/** Join codes: how they are drawn (internal/server/session/store.go) and how the join
    handler reads what a player typed (cmd/sfo-helper/main.go). */
module JoinCode {
  import opened Common

  const CHARS := "ABCDEFGHIJKLMNOPQRSTUVWXYZ0123456789"

  predicate CodeChar(c: char) { 'A' <= c <= 'Z' || '0' <= c <= '9' }

  /** The XXXX of a code SFO-XXXX. */
  predicate IsBody(x: string) { |x| == 4 && forall i | 0 <= i < 4 :: CodeChar(x[i]) }

  predicate IsCode(c: string) { |c| == 8 && c[..4] == "SFO-" && IsBody(c[4..]) }

  /** The code picked by four random bytes. */
  predicate DrawnFrom(code: string, random: seq<byte>)
    requires |random| == 4
  {
    |CHARS| == 36 && IsCode(code) && forall i | 0 <= i < 4 :: code[4 + i] == CHARS[random[i] as int % 36]
  }

  lemma CharsAreCodeChars(i: nat)
    requires i < 36
    ensures |CHARS| == 36 && CodeChar(CHARS[i])
  {
    if i < 26 {
      assert CHARS[..26] == "ABCDEFGHIJKLMNOPQRSTUVWXYZ";
      assert CHARS[i] == CHARS[..26][i];
    }
  }

  /** Draws a code from four random bytes; a failing random source yields none. */
  method GenerateCode(random: Option<seq<byte>>) returns (r: Option<string>)
    requires random.Some? ==> |random.value| == 4
    ensures r.Some? <==> random.Some?
    ensures r.Some? ==> DrawnFrom(r.value, random.value)
  {
    if random.None? { return None; }
    var b := random.value;
    var code := new char[4];
    for i := 0 to 4
      invariant forall j | 0 <= j < i :: |CHARS| == 36 && code[j] == CHARS[b[j] as int % 36] && CodeChar(code[j])
    {
      CharsAreCodeChars(b[i] as int % 36);
      code[i] := CHARS[b[i] as int % 36];
    }
    r := Some("SFO-" + code[..]);
    assert r.value[4..] == code[..];
  }

  const DIGITS := "0123456789abcdef"

  /** generateID's hexadecimal rendering. */
  function Hex(b: seq<byte>): (r: string)
    ensures |r| == 2 * |b|
    ensures forall i | 0 <= i < |b| ::
      |DIGITS| == 16 && r[2 * i] == DIGITS[b[i] as int / 16] && r[2 * i + 1] == DIGITS[b[i] as int % 16]
  {
    if b == [] then [] else [DIGITS[b[0] as int / 16], DIGITS[b[0] as int % 16]] + Hex(b[1..])
  }

  /** Different random bytes of one length give different identifiers. */
  lemma {:induction false} HexIsInjective(a: seq<byte>, b: seq<byte>)
    requires Hex(a) == Hex(b)
    ensures a == b
  {
    if a != [] {
      assert |b| == |a|;
      assert Hex(a)[0] == Hex(b)[0] && Hex(a)[1] == Hex(b)[1];
      assert Hex(a)[2..] == Hex(a[1..]) && Hex(b)[2..] == Hex(b[1..]);
      DigitsDiffer(a[0] as int / 16, b[0] as int / 16);
      DigitsDiffer(a[0] as int % 16, b[0] as int % 16);
      HexIsInjective(a[1..], b[1..]);
      assert a == [a[0]] + a[1..] && b == [b[0]] + b[1..];
    }
  }

  lemma DigitsDiffer(i: int, j: int)
    requires 0 <= i < 16 && 0 <= j < 16 && DIGITS[i] == DIGITS[j]
    ensures i == j
  {
  }

  // ---------- Normalisation in the join handler ----------

  /** The white space of Unicode. */
  predicate IsSpace(c: char) {
    || c == ' ' || '\t' <= c <= '\r' || c == '\U{85}' || c == '\U{A0}' || c == '\U{1680}'
    || '\U{2000}' <= c <= '\U{200A}' || c == '\U{2028}' || c == '\U{2029}' || c == '\U{202F}'
    || c == '\U{205F}' || c == '\U{3000}'
  }

  /** The dotless i and the long s are the only characters outside ASCII that are raised into
      it; what the others become makes no difference to which code is reached. */
  function ToUpper(c: char): char {
    if 'a' <= c <= 'z' then c - 32 as char
    else if c == '\U{131}' then 'I'
    else if c == '\U{17F}' then 'S'
    else c
  }

  /** The length that the handler measures, in bytes of UTF-8. */
  function ByteLength(s: string): (n: nat)
    ensures (forall i | 0 <= i < |s| :: s[i] < '\U{80}') ==> n == |s|
  {
    if s == [] then 0
    else
      (if s[0] < '\U{80}' then 1 else if s[0] < '\U{800}' then 2 else if s[0] < '\U{10000}' then 3 else 4) +
      ByteLength(s[1..])
  }

  function TrimLeft(s: string): string {
    if s != [] && IsSpace(s[0]) then TrimLeft(s[1..]) else s
  }

  function TrimRight(s: string): string {
    if s != [] && IsSpace(s[|s| - 1]) then TrimRight(s[..|s| - 1]) else s
  }

  function Upper(s: string): (r: string)
    ensures |r| == |s|
    ensures forall i | 0 <= i < |s| :: r[i] == ToUpper(s[i])
  {
    if s == [] then [] else [ToUpper(s[0])] + Upper(s[1..])
  }

  function Undash(s: string): (r: string)
    ensures '-' !in r
  {
    if s == [] then [] else (if s[0] == '-' then [] else [s[0]]) + Undash(s[1..])
  }

  function Clean(s: string): string { Undash(Upper(TrimRight(TrimLeft(s)))) }

  function Normalise(s: string): string {
    var code := Clean(s);
    var bare := if "SFO" <= code then code[3..] else code;
    if ByteLength(bare) == 4 then "SFO-" + bare else bare
  }

  lemma WhoIsNormalised(s: string, x: string)
    requires IsBody(x)
    ensures Normalise(s) == "SFO-" + x <==> Clean(s) == "SFO" + x || (Clean(s) == x && !("SFO" <= x))
  {
    var code := Clean(s);
    var bare := if "SFO" <= code then code[3..] else code;
    if ByteLength(bare) == 4 {
      assert ("SFO-" + bare)[4..] == bare && ("SFO-" + x)[4..] == x;
      if "SFO" <= code { assert code == "SFO" + bare; }
    } else {
      assert forall c :: c in bare ==> c in code;
      assert ("SFO-" + x)[3] == '-';
    }
  }

  // ---------- What players may type ----------

  /** `typed` is `plain` with dashes inserted anywhere. */
  ghost predicate InsertsDashes(plain: string, typed: string)
    decreases |typed|
  {
    if typed == [] then plain == []
    else
      || (typed[0] == '-' && InsertsDashes(plain, typed[1..]))
      || (plain != [] && typed[0] == plain[0] && InsertsDashes(plain[1..], typed[1..]))
  }

  predicate SameLetter(a: char, b: char) {
    || a == b || ('A' <= b <= 'Z' && a as int == b as int + 32)
    || (a == '\U{131}' && b == 'I') || (a == '\U{17F}' && b == 'S')
  }

  /** `typed` is the upper-case text `shown` with the case of any letters changed. */
  predicate ChangesCase(shown: string, typed: string) {
    |typed| == |shown| && forall i | 0 <= i < |typed| :: SameLetter(typed[i], shown[i])
  }

  predicate Blank(s: string) { forall i | 0 <= i < |s| :: IsSpace(s[i]) }

  /** `typed` shows `plain` to a reader who ignores case, dashes and outer white space. */
  ghost predicate Shows(typed: string, plain: string) {
    exists lead, cased, core, trail :: ShowsAs(typed, plain, lead, cased, core, trail)
  }

  ghost predicate ShowsAs(typed: string, plain: string, lead: string, cased: string, core: string, trail: string) {
    && typed == lead + core + trail && Blank(lead) && Blank(trail)
    && ChangesCase(plain, cased) && InsertsDashes(cased, core)
  }

  lemma {:induction false} TrimLeftDrops(lead: string, rest: string)
    requires Blank(lead) && rest != [] && !IsSpace(rest[0])
    ensures TrimLeft(lead + rest) == rest
  {
    if lead == [] {
      assert lead + rest == rest;
    } else {
      assert (lead + rest)[1..] == lead[1..] + rest;
      assert IsSpace(lead[0]);
      TrimLeftDrops(lead[1..], rest);
    }
  }

  lemma {:induction false} TrimRightDrops(rest: string, trail: string)
    requires Blank(trail) && rest != [] && !IsSpace(rest[|rest| - 1])
    ensures TrimRight(rest + trail) == rest
    decreases |trail|
  {
    if trail == [] {
      assert rest + trail == rest;
    } else {
      var n := |trail| - 1;
      assert (rest + trail)[..|rest + trail| - 1] == rest + trail[..n];
      assert (rest + trail)[|rest + trail| - 1] == trail[n] && IsSpace(trail[n]);
      TrimRightDrops(rest, trail[..n]);
    }
  }

  lemma {:induction false} UndashUndoes(plain: string, typed: string)
    requires InsertsDashes(plain, typed) && '-' !in plain
    ensures Undash(typed) == plain
    decreases |typed|
  {
    if typed != [] {
      if typed[0] == '-' && InsertsDashes(plain, typed[1..]) {
        UndashUndoes(plain, typed[1..]);
      } else {
        UndashUndoes(plain[1..], typed[1..]);
        assert plain == [plain[0]] + plain[1..];
      }
    }
  }

  lemma {:induction false} UpperThenUndash(s: string)
    ensures Undash(Upper(s)) == Upper(Undash(s))
  {
    if s != [] {
      assert Upper(s)[1..] == Upper(s[1..]);
      UpperThenUndash(s[1..]);
      if s[0] != '-' { assert Upper(Undash(s))[1..] == Upper(Undash(s)[1..]); }
    }
  }

  lemma {:induction false} CoreHasNoSpace(plain: string, typed: string, i: nat)
    requires InsertsDashes(plain, typed) && i < |typed|
    requires forall j | 0 <= j < |plain| :: !IsSpace(plain[j])
    ensures !IsSpace(typed[i])
    decreases |typed|
  {
    if typed[0] == '-' && InsertsDashes(plain, typed[1..]) {
      if i > 0 { CoreHasNoSpace(plain, typed[1..], i - 1); }
    } else if i > 0 {
      CoreHasNoSpace(plain[1..], typed[1..], i - 1);
    }
  }

  lemma CleanReads(typed: string, plain: string)
    requires Shows(typed, plain) && plain != [] && forall i | 0 <= i < |plain| :: CodeChar(plain[i])
    ensures Clean(typed) == plain
  {
    var lead, cased, core, trail :| ShowsAs(typed, plain, lead, cased, core, trail);
    forall i | 0 <= i < |cased| ensures !IsSpace(cased[i]) && cased[i] != '-' && ToUpper(cased[i]) == plain[i] {
      assert SameLetter(cased[i], plain[i]);
    }
    UndashUndoes(cased, core);
    CoreHasNoSpace(cased, core, 0);
    CoreHasNoSpace(cased, core, |core| - 1);
    assert lead + core + trail == lead + (core + trail);
    TrimLeftDrops(lead, core + trail);
    TrimRightDrops(core, trail);
    UpperThenUndash(core);
    assert Upper(cased) == plain;
  }

  lemma {:induction false} TrimLeftSplits(s: string) returns (lead: string)
    ensures Blank(lead) && s == lead + TrimLeft(s)
  {
    lead := [];
    if s != [] && IsSpace(s[0]) {
      lead := TrimLeftSplits(s[1..]);
      lead := [s[0]] + lead;
    }
  }

  lemma {:induction false} TrimRightSplits(s: string) returns (trail: string)
    ensures Blank(trail) && s == TrimRight(s) + trail
  {
    trail := [];
    if s != [] && IsSpace(s[|s| - 1]) {
      trail := TrimRightSplits(s[..|s| - 1]);
      trail := trail + [s[|s| - 1]];
    }
  }

  lemma {:induction false} DashesReturn(s: string)
    ensures InsertsDashes(Undash(s), s)
  {
    if s != [] {
      DashesReturn(s[1..]);
      var rest := Undash(s[1..]);
      assert if s[0] == '-' then Undash(s) == rest else Undash(s)[1..] == rest;
    }
  }

  /** What normalisation reads is exactly what the typed text shows. */
  lemma CleanExactly(typed: string, plain: string)
    requires plain != [] && forall i | 0 <= i < |plain| :: CodeChar(plain[i])
    ensures Clean(typed) == plain <==> Shows(typed, plain)
  {
    if Shows(typed, plain) { CleanReads(typed, plain); }
    if Clean(typed) == plain {
      var lead := TrimLeftSplits(typed);
      var trail := TrimRightSplits(TrimLeft(typed));
      var core := TrimRight(TrimLeft(typed));
      DashesReturn(core);
      UpperThenUndash(core);
      forall i | 0 <= i < |plain| ensures SameLetter(Undash(core)[i], plain[i]) {
        assert ToUpper(Undash(core)[i]) == plain[i];
      }
      assert ShowsAs(typed, plain, lead, Undash(core), core, trail);
    }
  }

  /** Of all texts, the ones that reach the session with code SFO-x are exactly those that show
      SFOx, or x itself when x does not begin with SFO. */
  lemma WhoReachesTheCode(s: string, x: string)
    requires IsBody(x)
    ensures Normalise(s) == "SFO-" + x <==> Shows(s, "SFO" + x) || (Shows(s, x) && !("SFO" <= x))
  {
    WhoIsNormalised(s, x);
    CleanExactly(s, "SFO" + x);
    CleanExactly(s, x);
  }

  /** However a player changes the case of SFOxxxx, sprinkles dashes over it (SFO-XXXX
      included) and pads it with white space, it normalises to the drawn code. */
  lemma TypedCodeIsRead(typed: string, x: string)
    requires IsBody(x) && Shows(typed, "SFO" + x)
    ensures Normalise(typed) == "SFO-" + x
  {
    WhoReachesTheCode(typed, x);
  }

  /** The bare form xxxx does so exactly when it does not itself begin with SFO. */
  lemma BareCodeIsRead(typed: string, x: string)
    requires IsBody(x) && Shows(typed, x)
    ensures Normalise(typed) == "SFO-" + x <==> !("SFO" <= x)
  {
    CleanReads(typed, x);
    WhoIsNormalised(typed, x);
  }
}
