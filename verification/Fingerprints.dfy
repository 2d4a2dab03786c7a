/**
 * The fingerprint of compiled code: the metadata trailer is stripped, and every library placeholder is
 * replaced by digits of that library's own fingerprint, recursively.
 */
module Fingerprints {
  import opened Wrappers
  import Sequences

  datatype Link = Link(source: string, name: string)

  /** A library artifact: its runtime code and, when it links others, which. */
  datatype Library = Library(bytecode: string, links: Option<seq<Link>>)

  type Resolver = map<Link, Library>

  predicate IsHex(c: char) {
    '0' <= c <= '9' || 'a' <= c <= 'f' || 'A' <= c <= 'F'
  }

  predicate Hex(s: string) {
    forall i :: 0 <= i < |s| ==> IsHex(s[i])
  }

  const ZEROS: string := "0000000000000000000000000000000000000000"

  /** What keccak256 returns: `0x` and 64 digits. */
  type Digest = d: string | |d| == 66 && d[..2] == "0x" && Hex(d[2..]) witness "0x" + seq(64, _ => '0')

  /** Keccak over the bytes of a text and over the bytes that hexadecimal code denotes. */
  datatype Hashes = Hashes(text: string -> Digest, code: string -> Digest)

  // ---------------------------------------------------------------- the metadata trailer

  function Digit(c: char): nat
    requires IsHex(c)
  {
    if c <= '9' then (c - '0') as nat else if c <= 'F' then (c - 'A') as nat + 10 else (c - 'a') as nat + 10
  }

  function HexRun(s: string): (n: nat)
    ensures n <= |s| && Hex(s[..n])
  {
    if s == "" || !IsHex(s[0]) then 0
    else
      var n := HexRun(s[1..]);
      assert s[..n + 1] == [s[0]] + s[1..][..n];
      n + 1
  }

  function ValueOf(digits: string): nat
    requires Hex(digits)
  {
    if digits == "" then 0 else 16 * ValueOf(digits[..|digits| - 1]) + Digit(digits[|digits| - 1])
  }

  /** `parseInt(s, 16)` on text made of digits, underscores and dollars: the leading digits, or NaN. */
  function ParseHex(s: string): Option<nat> {
    if HexRun(s) == 0 then None else Some(ValueOf(s[..HexRun(s)]))
  }

  /** Hexadecimal digits in either case, by their place in the row of digits. */
  lemma DigitValues(v: nat)
    requires v < 16
    ensures IsHex("0123456789abcdef"[v]) && Digit("0123456789abcdef"[v]) == v
    ensures IsHex("0123456789ABCDEF"[v]) && Digit("0123456789ABCDEF"[v]) == v
  {
  }

  lemma OnlyDigits(c: char)
    ensures IsHex(c) <==> c in "0123456789abcdefABCDEF"
  {
  }

  /** Four digits are read as a number to the base sixteen. */
  lemma FourDigits(s: string)
    requires |s| == 4 && Hex(s)
    ensures ParseHex(s) == Some(4096 * Digit(s[0]) + 256 * Digit(s[1]) + 16 * Digit(s[2]) + Digit(s[3]))
  {
    assert s[..4] == s && s[..3][..2] == s[..2] && s[..2][..1] == s[..1] && s[..1][..0] == "";
    LeadingRun(s, 4);
    assert ValueOf(s[..1]) == Digit(s[0]);
    assert ValueOf(s[..2]) == 16 * ValueOf(s[..1]) + Digit(s[1]);
    assert ValueOf(s[..3]) == 16 * ValueOf(s[..2]) + Digit(s[2]);
    assert ValueOf(s) == 16 * ValueOf(s[..3]) + Digit(s[3]);
  }

  /** The digits in front are what is read. */
  lemma {:induction false} LeadingRun(s: string, n: nat)
    requires n <= |s| && Hex(s[..n]) && (n < |s| ==> !IsHex(s[n]))
    ensures HexRun(s) == n
  {
    if n > 0 {
      assert IsHex(s[..n][0]) && s[1..][..n - 1] == s[..n][1..];
      LeadingRun(s[1..], n - 1);
    }
  }

  /** Text that does not start with a digit is not a number. */
  lemma NoNumber(s: string)
    ensures ParseHex(s).None? <==> s == "" || !IsHex(s[0])
  {
  }

  predicate Has0x(s: string) {
    |s| >= 2 && s[..2] == "0x"
  }

  /** An unreadable length compares false with both limits, and slicing by it keeps nothing. */
  function StripBody(code: string): string {
    if |code| < 4 then code
    else
      match ParseHex(code[|code| - 4..])
      case None => ""
      case Some(n) => if n > 500 || n * 2 + 4 > |code| then code else code[..|code| - (n * 2 + 4)]
  }

  function StripMetadata(bytecode: string): string {
    if |bytecode| < 4 then bytecode
    else if Has0x(bytecode) then "0x" + StripBody(bytecode[2..])
    else StripBody(bytecode)
  }

  /** A trailer that announces its own length. */
  predicate IsTrailer(t: string) {
    |t| >= 4 && var n := ParseHex(t[|t| - 4..]); n.Some? && n.value <= 500 && |t| == n.value * 2 + 4
  }

  lemma TrailerSlices(code: string, trailer: string)
    requires |trailer| >= 4
    ensures (code + trailer)[..|code|] == code
    ensures (code + trailer)[|code + trailer| - 4..] == trailer[|trailer| - 4..]
  {
  }

  lemma BodyStripped(code: string, trailer: string)
    requires IsTrailer(trailer)
    ensures StripBody(code + trailer) == code
  {
    TrailerSlices(code, trailer);
  }

  lemma PrefixSlices(prefix: string, body: string)
    ensures prefix == "" ==> prefix + body == body
    ensures prefix == "0x" ==> Has0x(prefix + body) && (prefix + body)[2..] == body
  {
  }

  /** Stripping removes a well-formed trailer, whatever it says, and nothing else. */
  lemma TrailerStripped(prefix: string, code: string, trailer: string)
    requires IsTrailer(trailer)
    requires prefix == "0x" || (prefix == "" && !Has0x(code + trailer))
    ensures StripMetadata(prefix + code + trailer) == prefix + code
  {
    BodyStripped(code, trailer);
    Sequences.Associates(prefix, code, trailer);
    PrefixSlices(prefix, code + trailer);
    PrefixSlices(prefix, code);
  }

  /** What is left of code with or without the prefix, spelled out. */
  lemma StripMeaning(prefix: string, body: string)
    requires prefix == "0x" || (prefix == "" && !(|body| >= 2 && body[0] == '0' && body[1] == 'x'))
    ensures var r := StripMetadata(prefix + body);
            if |body| < 4 then r == prefix + body
            else
              match ParseHex(body[|body| - 4..])
              case None => r == prefix
              case Some(n) =>
                r == prefix + if n > 500 || n * 2 + 4 > |body| then body else body[..|body| - (n * 2 + 4)]
  {
    PrefixSlices(prefix, body);
    if prefix == "" && |body| >= 2 {
      assert body[..2][0] == body[0] && body[..2][1] == body[1];
      Sequences.Unit(StripBody(body));
    }
  }

  /** What the last four characters announce. */
  function Announced(code: string): Option<nat>
    requires |code| >= 4
  {
    ParseHex(code[|code| - 4..])
  }

  /**
   * When stripping erases everything: when the last four characters do not start with a digit, which
   * passes the sanity check, or announce exactly what is there.
   */
  lemma UnreadableTrailerErases(code: string)
    requires |code| >= 4
    ensures StripBody(code) == ""
       <==> var n := Announced(code); n.None? || (n.value <= 500 && |code| == n.value * 2 + 4)
  {
  }

  /**
   * When stripping loses anything, and how much: whatever ends in a small enough number, trailer or
   * not. Code without metadata is kept exactly when its own last digits read as more than 500 bytes
   * or as more than there is.
   */
  lemma StrippedIff(code: string)
    ensures StripBody(code) != code
       <==> |code| >= 4 && var n := Announced(code); n.None? || (n.value <= 500 && n.value * 2 + 4 <= |code|)
    ensures StripBody(code) <= code
    ensures StripBody(code) != code && Announced(code).Some?
       ==> |StripBody(code)| == |code| - (Announced(code).value * 2 + 4)
  {
  }

  // ---------------------------------------------------------------- placeholders

  function Placeholder(hash: string): string {
    "__$" + hash + "$__"
  }

  predicate IsPlaceholder(w: string) {
    |w| == 40 && w[..3] == "__$" && Hex(w[3..37]) && w[37..] == "$__"
  }

  function PlaceholderHash(h: Hashes, l: Link): (r: string)
    ensures |r| == 34 && Hex(r)
  {
    h.text(l.source + ":" + l.name)[2..36]
  }

  /** A global replacement over a pattern of forty characters: leftmost matches first, none overlapping. */
  function Rewrite(s: string, f: string -> Option<string>): string {
    if |s| < 40 then s
    else
      match f(s[..40])
      case Some(r) => r + Rewrite(s[40..], f)
      case None => [s[0]] + Rewrite(s[1..], f)
  }

  /** The literal pattern of one library. */
  function Literal(hash: string, digits: string): string -> Option<string> {
    w => if w == Placeholder(hash) then Some(digits) else None
  }

  /** The pattern for any placeholder that is left. */
  function Leftover(): string -> Option<string> {
    w => if IsPlaceholder(w) then Some(ZEROS) else None
  }

  // ---------------------------------------------------------------- the recursion

  /** Libraries at hand (or no resolver at all), with a rank that shows their links are not circular. */
  datatype World = World(h: Hashes, libs: Option<Resolver>, rank: Link -> nat)

  ghost predicate Below(u: World, links: Option<seq<Link>>, bound: nat) {
    links.Some? && u.libs.Some? ==> forall l <- links.value :: l in u.libs.value ==> u.rank(l) < bound
  }

  ghost predicate Acyclic(u: World) {
    u.libs.Some? ==> forall l <- u.libs.value :: Below(u, u.libs.value[l].links, u.rank(l))
  }

  function With0x(s: string): string {
    if Has0x(s) then s else "0x" + s
  }

  ghost function Fingerprint(u: World, code: string, links: Option<seq<Link>>, bound: nat): Digest
    requires Acyclic(u) && Below(u, links, bound)
    decreases bound, 2, 0
  {
    u.h.code(With0x(Resolved(u, StripMetadata(code), links, bound)))
  }

  ghost function Resolved(u: World, text: string, links: Option<seq<Link>>, bound: nat): string
    requires Acyclic(u) && Below(u, links, bound)
    decreases bound, 1, 0
  {
    if links.None? || u.libs.None? then Rewrite(text, Leftover())
    else Rewrite(Substituted(u, text, links.value, bound), Leftover())
  }

  ghost function Substituted(u: World, text: string, links: seq<Link>, bound: nat): string
    requires Acyclic(u) && u.libs.Some? && Below(u, Some(links), bound)
    decreases bound, 0, |links|
  {
    if links == [] then text
    else
      var last := links[|links| - 1];
      assert last in links;
      Rewrite(Substituted(u, text, links[..|links| - 1], bound),
              Literal(PlaceholderHash(u.h, last), Digits(u, last, bound)))
  }

  /** Forty digits of the library's fingerprint, or zeros when its artifact is not available. */
  ghost function Digits(u: World, l: Link, bound: nat): string
    requires Acyclic(u) && u.libs.Some? && (l in u.libs.value ==> u.rank(l) < bound)
    decreases bound, 0, 0
  {
    if l in u.libs.value
    then Fingerprint(u, u.libs.value[l].bytecode, u.libs.value[l].links, u.rank(l))[2..42]
    else ZEROS
  }

  lemma DigestDigits(d: Digest)
    ensures |d[2..42]| == 40 && Hex(d[2..42])
  {
    forall i | 0 <= i < 40 ensures IsHex(d[2..42][i]) {
      assert d[2..42][i] == d[2..][i];
    }
  }

  lemma DigitsAreHex(u: World, l: Link, bound: nat)
    requires Acyclic(u) && u.libs.Some? && (l in u.libs.value ==> u.rank(l) < bound)
    ensures |Digits(u, l, bound)| == 40 && Hex(Digits(u, l, bound))
  {
    if l in u.libs.value {
      DigestDigits(Fingerprint(u, u.libs.value[l].bytecode, u.libs.value[l].links, u.rank(l)));
    }
  }

  method ComputeBytecodeHash(h: Hashes, libs: Option<Resolver>, code: string, links: Option<seq<Link>>,
                             ghost rank: Link -> nat, ghost bound: nat) returns (r: Digest)
    requires Acyclic(World(h, libs, rank)) && Below(World(h, libs, rank), links, bound)
    ensures r == Fingerprint(World(h, libs, rank), code, links, bound)
    decreases bound, 2
  {
    var resolved := ResolveLibraryPlaceholders(h, libs, StripMetadata(code), links, rank, bound);
    r := h.code(With0x(resolved));
  }

  method ResolveLibraryPlaceholders(h: Hashes, libs: Option<Resolver>, bytecode: string, links: Option<seq<Link>>,
                                    ghost rank: Link -> nat, ghost bound: nat) returns (result: string)
    requires Acyclic(World(h, libs, rank)) && Below(World(h, libs, rank), links, bound)
    ensures result == Resolved(World(h, libs, rank), bytecode, links, bound)
    decreases bound, 1
  {
    if links.None? || libs.None? {
      return Rewrite(bytecode, Leftover());
    }
    ghost var u := World(h, libs, rank);
    result := bytecode;
    for k := 0 to |links.value|
      invariant Below(u, Some(links.value[..k]), bound)
      invariant result == Substituted(u, bytecode, links.value[..k], bound)
    {
      var l := links.value[k];
      var digits := ZEROS;
      if l in libs.value {
        var hash := ComputeBytecodeHash(h, libs, libs.value[l].bytecode, libs.value[l].links, rank, rank(l));
        digits := hash[2..42];
      }
      assert links.value[..k + 1][..k] == links.value[..k];
      result := Rewrite(result, Literal(PlaceholderHash(h, l), digits));
    }
    assert links.value[..|links.value|] == links.value;
    result := Rewrite(result, Leftover());
  }
}
