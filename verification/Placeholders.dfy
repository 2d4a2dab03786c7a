/** Which slot of compiled code belongs to which library, in the compiler's own notation. */
module Placeholders {
  import opened Wrappers
  import opened Fingerprints
  import opened FingerprintSoundness
  import Sequences

  /** The compiler leaves this in the code for a library: a hash of its source path and name between markers. */
  function CompilerMark(h: Hashes, l: Link): string {
    "__$" + h.text(l.source + ":" + l.name)[2..36] + "$__"
  }

  /** Text without the characters that markers are made of, such as hexadecimal code. */
  predicate Unmarked(s: string) {
    forall i :: 0 <= i < |s| ==> s[i] != '_' && s[i] != '$'
  }

  /** Keccak keeps the name of this library apart from those of the other links. */
  predicate NameApart(h: Hashes, l: Link, links: seq<Link>) {
    forall m <- links :: m != l ==> h.text(m.source + ":" + m.name)[2..36] != h.text(l.source + ":" + l.name)[2..36]
  }

  /** What belongs in the slot: forty digits of the library's fingerprint, or zeros if it is not linked or at hand. */
  ghost function LibraryDigits(u: World, l: Link, links: Option<seq<Link>>): string
    requires Acyclic(u)
  {
    if links.Some? && l in links.value && u.libs.Some? && l in u.libs.value
    then Fingerprint(u, u.libs.value[l].bytecode, u.libs.value[l].links, u.rank(l))[2..42]
    else "0000000000000000000000000000000000000000"
  }

  // ---------------------------------------------------------------- one slot in plain code

  function OneSlot(p: string, hash: string, q: string): seq<Token> {
    Plains(p) + ([Slot(hash)] + Plains(q))
  }

  lemma OneSlotProper(p: string, hash: string, q: string)
    requires Unmarked(p) && Unmarked(q) && |hash| == 34 && Hex(hash)
    ensures AllProper(OneSlot(p, hash, q))
  {
  }

  lemma OneSlotRendered(p: string, hash: string, q: string)
    ensures Render(OneSlot(p, hash, q)) == p + ("__$" + hash + "$__" + q)
  {
    RenderConcat(Plains(p), [Slot(hash)] + Plains(q));
    PlainsRender(p);
    RenderCons(Slot(hash), Plains(q));
    PlainsRender(q);
  }

  lemma OneSlotFinished(p: string, hash: string, q: string, known: map<string, string>)
    ensures Finished(OneSlot(p, hash, q), known) == p + (Final(Slot(hash), known) + q)
  {
    FinishedConcat(Plains(p), [Slot(hash)] + Plains(q), known);
    PlainsFinish(p, known);
    FinishedCons(Slot(hash), Plains(q), known);
    PlainsFinish(q, known);
  }

  /** However often it is linked, the slot of a library holds its own digits. */
  lemma {:induction false} KnownOf(u: World, links: seq<Link>, bound: nat, l: Link)
    requires Acyclic(u) && u.libs.Some? && Below(u, Some(links), bound) && NameApart(u.h, l, links)
    ensures var known, hash := Known(u, links, bound), u.h.text(l.source + ":" + l.name)[2..36];
            if l in links then hash in known && known[hash] == Digits(u, l, bound) else hash !in known
  {
    if links != [] {
      var init, last := links[..|links| - 1], links[|links| - 1];
      assert last in links && forall m <- init :: m in links;
      assert init + [last] == links;
      KnownOf(u, init, bound, l);
    }
  }

  /**
   * Resolving code in which the compiler marked one library puts the digits of that library's own
   * fingerprint there, and leaves everything around it.
   */
  lemma SlotOfLibrary(u: World, links: Option<seq<Link>>, bound: nat, l: Link, p: string, q: string)
    requires Acyclic(u) && Below(u, links, bound) && Unmarked(p) && Unmarked(q)
    requires links.Some? ==> NameApart(u.h, l, links.value)
    ensures Resolved(u, p + (CompilerMark(u.h, l) + q), links, bound) == p + (LibraryDigits(u, l, links) + q)
  {
    var hash := u.h.text(l.source + ":" + l.name)[2..36];
    assert |hash| == 34 && Hex(hash);
    var ts := OneSlot(p, hash, q);
    OneSlotProper(p, hash, q);
    OneSlotRendered(p, hash, q);
    SubstitutionIsSimultaneous(u, ts, links, bound);
    OneSlotFinished(p, hash, q, AllKnown(u, links, bound));
    if links.Some? && u.libs.Some? {
      KnownOf(u, links.value, bound, l);
    }
  }

  /** The fingerprint of such code, written out: the text with the slot filled, prefixed, and hashed. */
  lemma FingerprintOfMarked(u: World, links: Option<seq<Link>>, bound: nat, l: Link, code: string, p: string, q: string)
    requires Acyclic(u) && Below(u, links, bound) && Unmarked(p) && Unmarked(q)
    requires links.Some? ==> NameApart(u.h, l, links.value)
    requires StripMetadata(code) == p + (CompilerMark(u.h, l) + q)
    ensures Fingerprint(u, code, links, bound) == u.h.code(Prefixed(p + (LibraryDigits(u, l, links) + q)))
  {
    SlotOfLibrary(u, links, bound, l, p, q);
    PrefixedIsPrefix(p + (LibraryDigits(u, l, links) + q));
  }

  lemma PrefixedIsPrefix(s: string)
    ensures With0x(s) == Prefixed(s)
  {
    Has0xCharacters(s);
  }

  function Prefixed(s: string): string {
    if |s| >= 2 && s[0] == '0' && s[1] == 'x' then s else "0x" + s
  }

  lemma PrefixedInjective(p: string, d: string, d': string, q: string)
    requires |d| == |d'| == 40 && Hex(d) && Hex(d')
    ensures Prefixed(p + (d + q)) == Prefixed(p + (d' + q)) <==> d == d'
  {
    var s, s' := p + (d + q), p + (d' + q);
    assert s[|p|..][..40] == d && s'[|p|..][..40] == d';
    if |p| >= 2 {
      assert s[0] == s'[0] && s[1] == s'[1];
    } else if |p| == 1 {
      assert s[1] == d[0] && s'[1] == d'[0] && IsHex(d[0]) && IsHex(d'[0]);
    } else {
      assert s[1] == d[1] && s'[1] == d'[1] && IsHex(d[1]) && IsHex(d'[1]);
    }
    if Prefixed(s) == Prefixed(s') {
      assert ("0x" + s)[2..] == s && ("0x" + s')[2..] == s';
    }
  }

  lemma LibraryDigitsAreHex(u: World, l: Link, links: Option<seq<Link>>)
    requires Acyclic(u)
    ensures |LibraryDigits(u, l, links)| == 40 && Hex(LibraryDigits(u, l, links))
  {
    if links.Some? && l in links.value && u.libs.Some? && l in u.libs.value {
      DigestDigits(Fingerprint(u, u.libs.value[l].bytecode, u.libs.value[l].links, u.rank(l)));
    }
  }

  /**
   * A contract that links a library has another fingerprint exactly when the kept digits of the
   * library's fingerprint are others, provided keccak keeps the two texts apart.
   */
  lemma LibraryChangeIsNoticed(u: World, u': World, links: seq<Link>, bound: nat, bound': nat, l: Link, code: string,
                               p: string, q: string)
    requires Acyclic(u) && Acyclic(u') && Below(u, Some(links), bound) && Below(u', Some(links), bound') && u'.h == u.h
    requires Unmarked(p) && Unmarked(q) && NameApart(u.h, l, links) && l in links
    requires u.libs.Some? && u'.libs.Some? && l in u.libs.value && l in u'.libs.value
    requires StripMetadata(code) == p + (CompilerMark(u.h, l) + q)
    requires var t, t' := Prefixed(p + (LibraryDigits(u, l, Some(links)) + q)),
                          Prefixed(p + (LibraryDigits(u', l, Some(links)) + q));
             u.h.code(t) == u.h.code(t') ==> t == t'
    ensures Fingerprint(u, code, Some(links), bound) == Fingerprint(u', code, Some(links), bound')
       <==> Fingerprint(u, u.libs.value[l].bytecode, u.libs.value[l].links, u.rank(l))[2..42]
            == Fingerprint(u', u'.libs.value[l].bytecode, u'.libs.value[l].links, u'.rank(l))[2..42]
  {
    FingerprintOfMarked(u, Some(links), bound, l, code, p, q);
    FingerprintOfMarked(u', Some(links), bound', l, code, p, q);
    LibraryDigitsAreHex(u, l, Some(links));
    LibraryDigitsAreHex(u', l, Some(links));
    PrefixedInjective(p, LibraryDigits(u, l, Some(links)), LibraryDigits(u', l, Some(links)), q);
  }
}
