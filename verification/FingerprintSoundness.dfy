/** What a fingerprint depends on: not on trailers or library order, and on all the code it reaches. */
module FingerprintSoundness {
  import opened Wrappers
  import opened Fingerprints
  import Sequences

  // ---------------------------------------------------------------- code with slots

  /** Stripped code, read as ordinary characters and library slots. */
  datatype Token = Plain(c: char) | Slot(hash: string)

  predicate Proper(t: Token) {
    match t
    case Plain(c) => c != '_' && c != '$'
    case Slot(hash) => |hash| == 34 && Hex(hash)
  }

  predicate AllProper(ts: seq<Token>) {
    forall i :: 0 <= i < |ts| ==> Proper(ts[i])
  }

  function Shown(t: Token): string {
    match t
    case Plain(c) => [c]
    case Slot(hash) => Placeholder(hash)
  }

  function Render(ts: seq<Token>): string {
    if ts == [] then "" else Shown(ts[0]) + Render(ts[1..])
  }

  function Plains(s: string): seq<Token> {
    seq(|s|, i requires 0 <= i < |s| => Plain(s[i]))
  }

  /** Slots with known digits are filled, all at once. */
  function Fill(ts: seq<Token>, known: map<string, string>): seq<Token> {
    if ts == [] then []
    else
      (if ts[0].Slot? && ts[0].hash in known then Plains(known[ts[0].hash]) else [ts[0]]) + Fill(ts[1..], known)
  }

  function Final(t: Token, known: map<string, string>): string {
    match t
    case Plain(c) => [c]
    case Slot(hash) => if hash in known then known[hash] else ZEROS
  }

  /** The finished text: known slots hold their digits, all others zeros. */
  function Finished(ts: seq<Token>, known: map<string, string>): string {
    if ts == [] then "" else Final(ts[0], known) + Finished(ts[1..], known)
  }

  lemma ShownSlot(hash: string)
    requires |hash| == 34 && Hex(hash)
    ensures |Placeholder(hash)| == 40 && IsPlaceholder(Placeholder(hash)) && Placeholder(hash)[3..37] == hash
  {
  }

  // ---------------------------------------------------------------- one pass over rendered code

  /** No placeholder starts strictly inside a slot. */
  lemma NothingInsideSlot(ts: seq<Token>, k: nat)
    requires AllProper(ts) && ts != [] && ts[0].Slot? && 1 <= k < 40 && k + 40 <= |Render(ts)|
    ensures !IsPlaceholder(Render(ts)[k..k + 40])
  {
    ShownSlot(ts[0].hash);
    var s, w, rest := Render(ts), Render(ts)[k..k + 40], Render(ts[1..]);
    assert s == Placeholder(ts[0].hash) + rest;
    assert |w| == 40 && w[..3][0] == w[0] && w[..3][1] == w[1] && w[..3][2] == w[2];
    if k < 3 {
      assert w[2 - k] == s[2] == '$';
    } else if k < 38 {
      assert w[0] == s[k];
      if k == 37 {
        assert s[37..40] == "$__";
      } else {
        assert s[k] == ts[0].hash[k - 3] && IsHex(ts[0].hash[k - 3]);
      }
      assert w[..3][0] != '_';
    } else {
      assert ts[1..] != [] && Proper(ts[1]);
      assert rest == Shown(ts[1]) + Render(ts[1..][1..]);
      assert w[40 - k] == s[40] == rest[0] == Shown(ts[1])[0];
      if k == 39 && ts[1].Slot? {
        assert w[2] == s[41] == rest[1] == Shown(ts[1])[1];
      }
    }
  }

  function Window(s: string, k: nat): string
    requires k + 40 <= |s|
  {
    s[k..k + 40]
  }

  lemma {:induction false} StepOver(s: string, f: string -> Option<string>, k: nat, n: nat)
    requires k <= n <= |s|
    requires forall j :: k <= j < n && j + 40 <= |s| ==> f(Window(s, j)).None?
    ensures Rewrite(s[k..], f) == s[k..n] + Rewrite(s[n..], f)
    decreases n - k
  {
    if k == n {
      Sequences.Unit(Rewrite(s[n..], f));
    } else if k + 40 <= |s| {
      Slices(s, k, n);
      StepOver(s, f, k + 1, n);
      Sequences.Associates([s[k]], s[k + 1..n], Rewrite(s[n..], f));
    } else {
      Slices(s, k, n);
    }
  }

  lemma Slices(s: string, k: nat, n: nat)
    requires k < n <= |s|
    ensures k + 40 <= |s| ==> s[k..][..40] == Window(s, k)
    ensures s[k..][1..] == s[k + 1..] && s[k..][0] == s[k]
    ensures [s[k]] + s[k + 1..n] == s[k..n] && s[k..n] + s[n..] == s[k..]
  {
  }

  /** The pass only looks at placeholders, and decides by their hash. */
  ghost predicate Decides(f: string -> Option<string>, g: string -> Option<string>) {
    && (forall w :: f(w).Some? ==> IsPlaceholder(w))
    && (forall hash :: |hash| == 34 && Hex(hash) ==> f(Placeholder(hash)) == g(hash))
  }

  function ShownBy(t: Token, g: string -> Option<string>): string {
    match t
    case Plain(c) => [c]
    case Slot(hash) => if g(hash).Some? then g(hash).value else Placeholder(hash)
  }

  function FillBy(ts: seq<Token>, g: string -> Option<string>): string {
    if ts == [] then "" else ShownBy(ts[0], g) + FillBy(ts[1..], g)
  }

  /** Scanning the text finds exactly the slots. */
  lemma {:induction false} RewriteFillsSlots(ts: seq<Token>, f: string -> Option<string>, g: string -> Option<string>)
    requires AllProper(ts) && Decides(f, g)
    ensures Rewrite(Render(ts), f) == FillBy(ts, g)
  {
    if ts != [] {
      RewriteFillsSlots(ts[1..], f, g);
      var s, rest := Render(ts), Render(ts[1..]);
      match ts[0]
      case Plain(c) =>
        if |s| >= 40 {
          assert s[..40][0] == c && s[..40][..3][0] == c;
          assert s[1..] == rest;
        } else {
          assert Rewrite(rest, f) == rest;
        }
      case Slot(hash) =>
        ShownSlot(hash);
        assert s[..40] == Placeholder(hash) && s[40..] == rest;
        if f(s[..40]).None? {
          forall j | 0 <= j < 40 && j + 40 <= |s| ensures f(Window(s, j)).None? {
            if j > 0 {
              NothingInsideSlot(ts, j);
            } else {
              assert Window(s, 0) == s[..40];
            }
          }
          StepOver(s, f, 0, 40);
          assert s[0..] == s;
        }
    }
  }

  lemma FillByCons(t: Token, ts: seq<Token>, g: string -> Option<string>)
    ensures FillBy([t] + ts, g) == ShownBy(t, g) + FillBy(ts, g)
  {
    assert ([t] + ts)[1..] == ts;
  }

  lemma PlainsCons(s: string)
    requires s != ""
    ensures Plains(s) == [Plain(s[0])] + Plains(s[1..])
  {
  }

  lemma {:induction false} FillByPlains(s: string, ts: seq<Token>, g: string -> Option<string>)
    ensures FillBy(Plains(s) + ts, g) == s + FillBy(ts, g)
  {
    if s == "" {
      Sequences.Unit(ts);
      Sequences.Unit(FillBy(ts, g));
      assert Plains(s) == [];
    } else {
      FillByPlains(s[1..], ts, g);
      FillByCons(Plain(s[0]), Plains(s[1..]) + ts, g);
      PlainsCons(s);
      Sequences.Associates([Plain(s[0])], Plains(s[1..]), ts);
      Sequences.Associates([s[0]], s[1..], FillBy(ts, g));
      Sequences.HeadTail(s);
    }
  }

  function Else(known: map<string, string>, g: string -> Option<string>): string -> Option<string> {
    hash => if hash in known then Some(known[hash]) else g(hash)
  }

  /** Filling in two passes is one pass in which the first filling has precedence. */
  lemma {:induction false} FillTwice(ts: seq<Token>, known: map<string, string>, g: string -> Option<string>)
    ensures FillBy(Fill(ts, known), g) == FillBy(ts, Else(known, g))
  {
    if ts != [] {
      FillTwice(ts[1..], known, g);
      if ts[0].Slot? && ts[0].hash in known {
        FillByPlains(known[ts[0].hash], Fill(ts[1..], known), g);
      } else {
        FillByCons(ts[0], Fill(ts[1..], known), g);
      }
    }
  }

  lemma {:induction false} FillBySame(ts: seq<Token>, g: string -> Option<string>, g': string -> Option<string>)
    requires forall hash :: g(hash) == g'(hash)
    ensures FillBy(ts, g) == FillBy(ts, g')
  {
    if ts != [] {
      FillBySame(ts[1..], g, g');
    }
  }

  function Unfilled(): string -> Option<string> { _ => None }

  lemma {:induction false} RenderIsFillBy(ts: seq<Token>)
    ensures Render(ts) == FillBy(ts, Unfilled())
  {
    if ts != [] {
      RenderIsFillBy(ts[1..]);
    }
  }

  lemma {:induction false} FinishedIsFillBy(ts: seq<Token>, known: map<string, string>, g: string -> Option<string>)
    requires forall hash :: g(hash) == Some(ZEROS)
    ensures Finished(ts, known) == FillBy(ts, Else(known, g))
  {
    if ts != [] {
      FinishedIsFillBy(ts[1..], known, g);
    }
  }

  /** Digits contain neither underscores nor dollars, so nothing new looks like a placeholder. */
  predicate AreDigits(known: map<string, string>) {
    forall hash <- known :: |known[hash]| == 40 && Hex(known[hash])
  }

  lemma {:induction false} FillProper(ts: seq<Token>, known: map<string, string>)
    requires AllProper(ts) && AreDigits(known)
    ensures AllProper(Fill(ts, known))
  {
    if ts != [] {
      FillProper(ts[1..], known);
    }
  }

  // ---------------------------------------------------------------- the loop over the libraries

  /** The digits for each placeholder; the first library with a given hash decides. */
  ghost function Known(u: World, links: seq<Link>, bound: nat): (known: map<string, string>)
    requires Acyclic(u) && u.libs.Some? && Below(u, Some(links), bound)
    ensures AreDigits(known)
  {
    if links == [] then map[]
    else
      var last := links[|links| - 1];
      assert last in links;
      var known := Known(u, links[..|links| - 1], bound);
      var hash := PlaceholderHash(u.h, last);
      DigitsAreHex(u, last, bound);
      if hash in known then known else known[hash := Digits(u, last, bound)]
  }

  lemma LiteralDecides(hash: string, digits: string, g: string -> Option<string>)
    requires |hash| == 34 && Hex(hash)
    requires forall x :: g(x) == if x == hash then Some(digits) else None
    ensures Decides(Literal(hash, digits), g)
  {
    ShownSlot(hash);
    forall x | |x| == 34 && Hex(x) ensures Literal(hash, digits)(Placeholder(x)) == g(x) {
      ShownSlot(x);
    }
  }

  lemma LeftoverDecides(g: string -> Option<string>)
    requires forall x :: g(x) == Some(ZEROS)
    ensures Decides(Leftover(), g)
  {
    forall x | |x| == 34 && Hex(x) ensures Leftover()(Placeholder(x)) == g(x) {
      ShownSlot(x);
    }
  }

  lemma {:induction false} SubstitutedText(u: World, ts: seq<Token>, links: seq<Link>, bound: nat)
    requires Acyclic(u) && u.libs.Some? && Below(u, Some(links), bound) && AllProper(ts)
    ensures Substituted(u, Render(ts), links, bound) == Render(Fill(ts, Known(u, links, bound)))
  {
    RenderIsFillBy(Fill(ts, Known(u, links, bound)));
    FillTwice(ts, Known(u, links, bound), Unfilled());
    if links == [] {
      RenderIsFillBy(ts);
      FillBySame(ts, Unfilled(), Else(map[], Unfilled()));
    } else {
      var init, last := links[..|links| - 1], links[|links| - 1];
      assert last in links;
      SubstitutedText(u, ts, init, bound);
      var known, hash, digits := Known(u, init, bound), PlaceholderHash(u.h, last), Digits(u, last, bound);
      var g := x => if x == hash then Some(digits) else None;
      LiteralDecides(hash, digits, g);
      FillProper(ts, known);
      RewriteFillsSlots(Fill(ts, known), Literal(hash, digits), g);
      FillTwice(ts, known, g);
      FillBySame(ts, Else(known, g), Else(Known(u, links, bound), Unfilled()));
    }
  }

  ghost function AllKnown(u: World, links: Option<seq<Link>>, bound: nat): (known: map<string, string>)
    requires Acyclic(u) && Below(u, links, bound)
    ensures AreDigits(known)
  {
    if links.None? || u.libs.None? then map[] else Known(u, links.value, bound)
  }

  /**
   * The library-by-library loop is one simultaneous substitution: every slot holds its library's
   * digits, or zeros. The result is as long as the code and contains no placeholder.
   */
  lemma SubstitutionIsSimultaneous(u: World, ts: seq<Token>, links: Option<seq<Link>>, bound: nat)
    requires Acyclic(u) && Below(u, links, bound) && AllProper(ts)
    ensures var r := Resolved(u, Render(ts), links, bound);
            && r == Finished(ts, AllKnown(u, links, bound))
            && |r| == |Render(ts)|
            && forall i :: 0 <= i < |r| ==> r[i] != '_' && r[i] != '$'
  {
    var known := AllKnown(u, links, bound);
    var zeros := (x: string) => Some(ZEROS);
    if links.Some? && u.libs.Some? {
      SubstitutedText(u, ts, links.value, bound);
    } else {
      RenderIsFillBy(ts);
      RenderIsFillBy(Fill(ts, map[]));
      FillTwice(ts, map[], Unfilled());
      FillBySame(ts, Unfilled(), Else(map[], Unfilled()));
    }
    LeftoverDecides(zeros);
    FillProper(ts, known);
    RewriteFillsSlots(Fill(ts, known), Leftover(), zeros);
    FillTwice(ts, known, zeros);
    FinishedIsFillBy(ts, known, zeros);
    FinishedShape(ts, known);
  }

  lemma FinalShape(t: Token, known: map<string, string>)
    requires Proper(t) && AreDigits(known)
    ensures var r := Final(t, known);
            |r| == |Shown(t)| && forall i :: 0 <= i < |r| ==> r[i] != '_' && r[i] != '$'
  {
    if t.Slot? {
      ShownSlot(t.hash);
      HexClean(if t.hash in known then known[t.hash] else ZEROS);
    }
  }

  lemma HexClean(s: string)
    requires Hex(s)
    ensures forall i :: 0 <= i < |s| ==> s[i] != '_' && s[i] != '$'
  {
    forall i | 0 <= i < |s| ensures s[i] != '_' && s[i] != '$' {
      assert IsHex(s[i]);
    }
  }

  lemma {:induction false} FinishedShape(ts: seq<Token>, known: map<string, string>)
    requires AllProper(ts) && AreDigits(known)
    ensures var r := Finished(ts, known);
            |r| == |Render(ts)| && forall i :: 0 <= i < |r| ==> r[i] != '_' && r[i] != '$'
  {
    if ts != [] {
      FinishedShape(ts[1..], known);
      FinalShape(ts[0], known);
      var head, tail := Final(ts[0], known), Finished(ts[1..], known);
      forall i | 0 <= i < |head + tail| ensures (head + tail)[i] != '_' && (head + tail)[i] != '$' {
        assert (head + tail)[i] == if i < |head| then head[i] else tail[i - |head|];
      }
    }
  }

  // ---------------------------------------------------------------- order

  /** No two libraries share a placeholder. */
  predicate DistinctHashes(h: Hashes, links: seq<Link>) {
    forall j, k :: 0 <= j < k < |links| ==> PlaceholderHash(h, links[j]) != PlaceholderHash(h, links[k])
  }

  lemma {:induction false} KnownFrom(u: World, links: seq<Link>, bound: nat, hash: string)
    requires Acyclic(u) && u.libs.Some? && Below(u, Some(links), bound) && hash in Known(u, links, bound)
    ensures exists k :: 0 <= k < |links| && PlaceholderHash(u.h, links[k]) == hash
  {
    var n := |links| - 1;
    if PlaceholderHash(u.h, links[n]) != hash {
      KnownFrom(u, links[..n], bound, hash);
      var k :| 0 <= k < n && PlaceholderHash(u.h, links[..n][k]) == hash;
      assert links[k] == links[..n][k];
    }
  }

  lemma {:induction false} KnownAt(u: World, links: seq<Link>, bound: nat, k: nat)
    requires Acyclic(u) && u.libs.Some? && Below(u, Some(links), bound) && DistinctHashes(u.h, links) && k < |links|
    ensures var known, hash := Known(u, links, bound), PlaceholderHash(u.h, links[k]);
            hash in known && known[hash] == Digits(u, links[k], bound)
  {
    var n := |links| - 1;
    LastIsNew(u, links, bound);
    if k < n {
      assert links[..n][k] == links[k];
      KnownAt(u, links[..n], bound, k);
    }
  }

  lemma LastIsNew(u: World, links: seq<Link>, bound: nat)
    requires links != [] && Acyclic(u) && u.libs.Some? && Below(u, Some(links), bound) && DistinctHashes(u.h, links)
    ensures Below(u, Some(links[..|links| - 1]), bound)
    ensures PlaceholderHash(u.h, links[|links| - 1]) !in Known(u, links[..|links| - 1], bound)
  {
    var n := |links| - 1;
    if PlaceholderHash(u.h, links[n]) in Known(u, links[..n], bound) {
      KnownFrom(u, links[..n], bound, PlaceholderHash(u.h, links[n]));
    }
  }

  /** The digits known for a placeholder are those of the one library it stands for. */
  lemma KnownLookup(u: World, links: seq<Link>, bound: nat, l: Link)
    requires Acyclic(u) && u.libs.Some? && Below(u, Some(links), bound) && DistinctHashes(u.h, links) && l in links
    ensures var known, hash := Known(u, links, bound), PlaceholderHash(u.h, l);
            hash in known && known[hash] == Digits(u, l, bound)
  {
    var k :| 0 <= k < |links| && links[k] == l;
    KnownAt(u, links, bound, k);
  }

  lemma KnownContained(u: World, links: seq<Link>, links': seq<Link>, bound: nat, hash: string)
    requires Acyclic(u) && u.libs.Some? && Below(u, Some(links), bound) && Below(u, Some(links'), bound)
    requires DistinctHashes(u.h, links) && DistinctHashes(u.h, links') && forall l :: l in links ==> l in links'
    requires hash in Known(u, links, bound)
    ensures hash in Known(u, links', bound) && Known(u, links', bound)[hash] == Known(u, links, bound)[hash]
  {
    KnownFrom(u, links, bound, hash);
    var k :| 0 <= k < |links| && PlaceholderHash(u.h, links[k]) == hash;
    KnownLookup(u, links, bound, links[k]);
    KnownLookup(u, links', bound, links[k]);
  }

  /** The order in which the libraries are substituted does not matter. */
  lemma OrderIrrelevant(u: World, ts: seq<Token>, links: seq<Link>, links': seq<Link>, bound: nat)
    requires Acyclic(u) && u.libs.Some? && Below(u, Some(links), bound) && AllProper(ts)
    requires DistinctHashes(u.h, links) && DistinctHashes(u.h, links')
    requires forall l :: l in links <==> l in links'
    ensures Resolved(u, Render(ts), Some(links), bound) == Resolved(u, Render(ts), Some(links'), bound)
  {
    forall hash | hash in Known(u, links, bound) || hash in Known(u, links', bound)
      ensures hash in Known(u, links, bound) && hash in Known(u, links', bound)
              && Known(u, links, bound)[hash] == Known(u, links', bound)[hash]
    {
      if hash in Known(u, links, bound) {
        KnownContained(u, links, links', bound, hash);
      } else {
        KnownContained(u, links', links, bound, hash);
      }
    }
    assert Known(u, links, bound) == Known(u, links', bound);
    SubstitutionIsSimultaneous(u, ts, Some(links), bound);
    SubstitutionIsSimultaneous(u, ts, Some(links'), bound);
  }

  // ---------------------------------------------------------------- trailers

  /** The same libraries up to their metadata trailers. */
  ghost predicate SameButTrailers(u: World, u': World) {
    && u'.h == u.h && u'.rank == u.rank && u'.libs.Some? == u.libs.Some?
    && (u.libs.Some? ==>
          && u'.libs.value.Keys == u.libs.value.Keys
          && forall l <- u.libs.value ::
               && u'.libs.value[l].links == u.libs.value[l].links
               && StripMetadata(u'.libs.value[l].bytecode) == StripMetadata(u.libs.value[l].bytecode))
  }

  /**
   * The fingerprint ignores the metadata of the contract and of every library it links, directly
   * or through other libraries.
   */
  lemma {:induction false} TrailersIrrelevant(u: World, u': World, code: string, code': string,
                                              links: Option<seq<Link>>, bound: nat)
    requires Acyclic(u) && Acyclic(u') && Below(u, links, bound) && SameButTrailers(u, u')
    requires StripMetadata(code') == StripMetadata(code)
    ensures Fingerprint(u', code', links, bound) == Fingerprint(u, code, links, bound)
    decreases bound, 1, 0
  {
    if links.Some? && u.libs.Some? {
      TrailersIrrelevantToLinks(u, u', StripMetadata(code), links.value, bound);
    }
  }

  lemma {:induction false} TrailersIrrelevantToLinks(u: World, u': World, text: string, links: seq<Link>, bound: nat)
    requires Acyclic(u) && Acyclic(u') && u.libs.Some? && Below(u, Some(links), bound) && SameButTrailers(u, u')
    ensures Substituted(u', text, links, bound) == Substituted(u, text, links, bound)
    decreases bound, 0, |links|
  {
    if links != [] {
      var last := links[|links| - 1];
      assert last in links;
      TrailersIrrelevantToLinks(u, u', text, links[..|links| - 1], bound);
      if last in u.libs.value {
        var lib, lib' := u.libs.value[last], u'.libs.value[last];
        TrailersIrrelevant(u, u', lib.bytecode, lib'.bytecode, lib.links, u.rank(last));
      }
    }
  }

  /** In particular: a contract recompiled with another well-formed trailer keeps its fingerprint. */
  lemma FingerprintIgnoresTrailer(u: World, prefix: string, code: string, trailer: string, trailer': string,
                                  links: Option<seq<Link>>, bound: nat)
    requires Acyclic(u) && Below(u, links, bound) && IsTrailer(trailer) && IsTrailer(trailer')
    requires prefix == "0x" || (prefix == "" && !Has0x(code + trailer) && !Has0x(code + trailer'))
    ensures Fingerprint(u, prefix + code + trailer, links, bound)
            == Fingerprint(u, prefix + code + trailer', links, bound)
  {
    TrailerStripped(prefix, code, trailer);
    TrailerStripped(prefix, code, trailer');
    TrailersIrrelevant(u, u, prefix + code + trailer', prefix + code + trailer, links, bound);
  }

  /** The rank only shows that the recursion ends: any rank gives the same fingerprint. */
  lemma {:induction false} RankIrrelevant(u: World, u': World, code: string, links: Option<seq<Link>>,
                                        bound: nat, bound': nat)
    requires Acyclic(u) && Acyclic(u') && Below(u, links, bound) && Below(u', links, bound')
    requires u'.h == u.h && u'.libs == u.libs
    ensures Fingerprint(u', code, links, bound') == Fingerprint(u, code, links, bound)
    decreases bound, 1, 0
  {
    if links.Some? && u.libs.Some? {
      RankIrrelevantToLinks(u, u', StripMetadata(code), links.value, bound, bound');
    }
  }

  lemma {:induction false} RankIrrelevantToLinks(u: World, u': World, text: string, links: seq<Link>,
                                        bound: nat, bound': nat)
    requires Acyclic(u) && Acyclic(u') && Below(u, Some(links), bound) && Below(u', Some(links), bound')
    requires u'.h == u.h && u'.libs == u.libs && u.libs.Some?
    ensures Substituted(u', text, links, bound') == Substituted(u, text, links, bound)
    decreases bound, 0, |links|
  {
    if links != [] {
      var last := links[|links| - 1];
      assert last in links;
      RankIrrelevantToLinks(u, u', text, links[..|links| - 1], bound, bound');
      if last in u.libs.value {
        var lib := u.libs.value[last];
        RankIrrelevant(u, u', lib.bytecode, lib.links, u.rank(last), u'.rank(last));
      }
    }
  }

  // ---------------------------------------------------------------- the fingerprint determines the code

  /** Stripped code as tokens, and the libraries it links. */
  datatype Code = Code(tokens: seq<Token>, links: seq<Link>)

  /** One state of the sources: libraries, and the stripped code of each as tokens. */
  datatype Sources = Sources(world: World, tokens: map<Link, seq<Token>>)

  ghost predicate Readable(v: Sources) {
    && v.world.libs.Some? && Acyclic(v.world) && v.tokens.Keys == v.world.libs.value.Keys
    && forall l <- v.tokens ::
         && StripMetadata(v.world.libs.value[l].bytecode) == Render(v.tokens[l])
         && WellFormed(v.world.h, CodeOf(v, l))
  }

  /** A library without link references links nothing. */
  ghost function CodeOf(v: Sources, l: Link): Code
    requires v.world.libs.Some? && l in v.tokens && l in v.world.libs.value
  {
    Code(v.tokens[l], v.world.libs.value[l].links.GetOr([]))
  }

  predicate WellFormed(h: Hashes, code: Code) {
    AllProper(code.tokens) && DistinctHashes(h, code.links)
  }

  /** The libraries the code links can be resolved below the bound. */
  ghost predicate Fits(v: Sources, code: Code, bound: nat) {
    Readable(v) && Below(v.world, Some(code.links), bound) && WellFormed(v.world.h, code)
  }

  /** The text with every slot filled. */
  ghost function Text(v: Sources, code: Code, bound: nat): string
    requires Fits(v, code, bound)
  {
    Finished(code.tokens, Known(v.world, code.links, bound))
  }

  ghost function HashOf(v: Sources, code: Code, bound: nat): Digest
    requires Fits(v, code, bound)
  {
    v.world.h.code(With0x(Text(v, code, bound)))
  }

  /** `HashOf` is the fingerprint of any bytecode that strips to these tokens, with link references or without. */
  lemma HashOfIsFingerprint(v: Sources, bytecode: string, links: Option<seq<Link>>, code: Code, bound: nat)
    requires Fits(v, code, bound) && StripMetadata(bytecode) == Render(code.tokens) && code.links == links.GetOr([])
    ensures Fingerprint(v.world, bytecode, links, bound) == HashOf(v, code, bound)
  {
    SubstitutionIsSimultaneous(v.world, code.tokens, links, bound);
  }

  /** Two states with the same library names at hand; their code and what they link may differ. */
  ghost predicate Alike(v: Sources, v': Sources) {
    Readable(v) && Readable(v') && v'.world.h == v.world.h && v'.tokens.Keys == v.tokens.Keys
  }

  /** The library's placeholder occurs in the code. */
  predicate Occurs(h: Hashes, l: Link, ts: seq<Token>) {
    Slot(PlaceholderHash(h, l)) in ts
  }

  ghost predicate Used(v: Sources, l: Link, ts: seq<Token>) {
    l in v.tokens && Occurs(v.world.h, l, ts)
  }

  /** No two libraries of the two lists share a placeholder. */
  ghost predicate NamesApart(h: Hashes, links: seq<Link>, links': seq<Link>) {
    forall l <- links, m <- links' :: PlaceholderHash(h, l) == PlaceholderHash(h, m) ==> l == m
  }

  /** The digits of a library at hand that only one of two linkings knows are not all zeros. */
  ghost predicate NoZeros(v: Sources, ts: seq<Token>, links: seq<Link>, links': seq<Link>, bound: nat)
    requires Readable(v) && Below(v.world, Some(links), bound)
  {
    forall l <- links :: Used(v, l, ts) && l !in links' ==> Digits(v.world, l, bound) != ZEROS
  }

  /** The slots are in the same places. */
  predicate Aligned(ts: seq<Token>, ts': seq<Token>) {
    |ts| == |ts'|
    && forall i :: 0 <= i < |ts| ==> ts[i].Slot? == ts'[i].Slot? && (ts[i].Slot? ==> ts'[i] == ts[i])
  }

  /** Texts that are hashed alike in the digits that are kept are the same. */
  ghost predicate NoCollision(v: Sources, v': Sources, code: Code, code': Code, bound: nat, bound': nat)
    requires Fits(v, code, bound) && Fits(v', code', bound')
  {
    HashOf(v, code, bound)[2..42] == HashOf(v', code', bound')[2..42]
    ==> With0x(Text(v, code, bound)) == With0x(Text(v', code', bound'))
  }

  /**
   * Which two versions the theorem is about. Those of one length must have their slots in the same
   * places, and both or neither the `0x` prefix. The rest asks keccak for no more than to keep apart
   * the texts and the names that are in fact compared. Where the code is the same, the libraries
   * that both versions use must be comparable in turn.
   */
  ghost predicate Comparable(v: Sources, v': Sources, code: Code, code': Code, bound: nat, bound': nat)
    requires Alike(v, v') && Fits(v, code, bound) && Fits(v', code', bound')
    decreases bound
  {
    && (|Render(code.tokens)| == |Render(code'.tokens)| ==> Aligned(code.tokens, code'.tokens))
    && (Has0x(Render(code.tokens)) <==> Has0x(Render(code'.tokens)))
    && NoCollision(v, v', code, code', bound, bound')
    && (code.tokens == code'.tokens ==>
          && NamesApart(v.world.h, code.links, code'.links)
          && NoZeros(v, code.tokens, code.links, code'.links, bound)
          && NoZeros(v', code.tokens, code'.links, code.links, bound')
          && forall l <- code.links :: l in code'.links && Used(v, l, code.tokens) ==>
               Comparable(v, v', CodeOf(v, l), CodeOf(v', l), v.world.rank(l), v'.world.rank(l)))
  }

  /**
   * The same stripped code, here and in every library reachable through placeholders that occur; and
   * the same of these placeholders are linked.
   */
  ghost predicate SameCode(v: Sources, v': Sources, code: Code, code': Code, bound: nat)
    requires Alike(v, v') && Below(v.world, Some(code.links), bound)
    decreases bound
  {
    && code.tokens == code'.tokens
    && (forall l <- code'.links :: Used(v, l, code.tokens) ==> l in code.links)
    && forall l <- code.links :: Used(v, l, code.tokens) ==>
         l in code'.links && SameCode(v, v', CodeOf(v, l), CodeOf(v', l), v.world.rank(l))
  }

  // ---------------------------------------------------------------- equal texts

  lemma ConcatEqual(a: string, x: string, b: string, y: string)
    requires |a| == |b|
    ensures a + x == b + y <==> a == b && x == y
  {
    if a + x == b + y {
      assert a == (a + x)[..|a|] == (b + y)[..|a|] == b;
      assert x == (a + x)[|a|..] == (b + y)[|a|..] == y;
    }
  }

  predicate SameDigits(ts: seq<Token>, known: map<string, string>, known': map<string, string>) {
    forall i :: 0 <= i < |ts| ==> Final(ts[i], known) == Final(ts[i], known')
  }

  lemma SameDigitsCons(ts: seq<Token>, known: map<string, string>, known': map<string, string>)
    requires ts != []
    ensures SameDigits(ts, known, known')
       <==> Final(ts[0], known) == Final(ts[0], known') && SameDigits(ts[1..], known, known')
  {
    if Final(ts[0], known) == Final(ts[0], known') && SameDigits(ts[1..], known, known') {
      forall i | 0 <= i < |ts| ensures Final(ts[i], known) == Final(ts[i], known') {
        if i > 0 {
          assert ts[i] == ts[1..][i - 1];
        }
      }
    }
  }

  lemma TokensCons(ts: seq<Token>, ts': seq<Token>)
    requires ts != [] && ts' != []
    ensures ts == ts' <==> ts[0] == ts'[0] && ts[1..] == ts'[1..]
  {
    Sequences.HeadTail(ts);
    Sequences.HeadTail(ts');
  }

  /** With the slots in the same places, equal texts have equal characters and equal digits in every slot. */
  lemma {:induction false} FinishedDetermines(ts: seq<Token>, ts': seq<Token>, known: map<string, string>,
                                        known': map<string, string>)
    requires Aligned(ts, ts') && AreDigits(known) && AreDigits(known')
    ensures Finished(ts, known) == Finished(ts', known') <==> ts == ts' && SameDigits(ts, known, known')
    ensures |Finished(ts, known)| == |Finished(ts', known')|
  {
    if ts != [] {
      FinishedDetermines(ts[1..], ts'[1..], known, known');
      SameDigitsCons(ts, known, known');
      TokensCons(ts, ts');
      ConcatEqual(Final(ts[0], known), Finished(ts[1..], known), Final(ts'[0], known'), Finished(ts'[1..], known'));
    }
  }

  lemma Has0xCharacters(s: string)
    ensures Has0x(s) <==> |s| >= 2 && s[0] == '0' && s[1] == 'x'
  {
    if |s| >= 2 && s[0] == '0' && s[1] == 'x' {
      assert s[..2] == "0x";
    }
  }

  lemma SlotIsDigits(t: Token, known: map<string, string>)
    requires t.Slot? && AreDigits(known)
    ensures |Final(t, known)| == 40 && IsHex(Final(t, known)[0]) && IsHex(Final(t, known)[1])
  {
  }

  /** Filling slots neither makes nor removes a prefix. */
  lemma FinishedPrefix(ts: seq<Token>, known: map<string, string>)
    requires AllProper(ts) && AreDigits(known)
    ensures Has0x(Finished(ts, known)) <==> Has0x(Render(ts))
  {
    Has0xCharacters(Finished(ts, known));
    Has0xCharacters(Render(ts));
    FinishedShape(ts, known);
    if |Render(ts)| >= 2 {
      FirstCharacters(ts, known);
    }
  }

  lemma FirstCharacters(ts: seq<Token>, known: map<string, string>)
    requires AllProper(ts) && AreDigits(known) && |Finished(ts, known)| >= 2 && |Render(ts)| >= 2
    ensures var f, r := Finished(ts, known), Render(ts);
            (f[0] == '0' && f[1] == 'x') <==> (r[0] == '0' && r[1] == 'x')
  {
    assert Proper(ts[0]);
    if ts[0].Slot? {
      ShownSlot(ts[0].hash);
      SlotIsDigits(ts[0], known);
    } else {
      assert ts[1..] != [] && Proper(ts[1]) && ts[1..][0] == ts[1];
      if ts[1].Slot? {
        ShownSlot(ts[1].hash);
        SlotIsDigits(ts[1], known);
      }
    }
  }

  /** Adding the prefix keeps different texts apart, unless just one of them had it already. */
  lemma With0xInjective(a: string, b: string)
    requires Has0x(a) <==> Has0x(b)
    ensures With0x(a) == With0x(b) <==> a == b
  {
    if With0x(a) == With0x(b) && !Has0x(a) {
      assert With0x(a)[2..] == a && With0x(b)[2..] == b;
    }
  }

  /**
   * For any two versions with or without the prefix alike, whatever their slots: the fingerprints
   * are equal exactly when the two texts with every slot filled are the same.
   */
  lemma FingerprintsAgreeIff(v: Sources, v': Sources, code: Code, code': Code, bound: nat, bound': nat)
    requires Alike(v, v') && Fits(v, code, bound) && Fits(v', code', bound')
    requires Has0x(Render(code.tokens)) <==> Has0x(Render(code'.tokens))
    requires NoCollision(v, v', code, code', bound, bound')
    ensures HashOf(v, code, bound) == HashOf(v', code', bound') <==> Text(v, code, bound) == Text(v', code', bound')
    ensures HashOf(v, code, bound)[2..42] == HashOf(v', code', bound')[2..42]
       <==> HashOf(v, code, bound) == HashOf(v', code', bound')
  {
    FinishedPrefix(code.tokens, Known(v.world, code.links, bound));
    FinishedPrefix(code'.tokens, Known(v'.world, code'.links, bound'));
    With0xInjective(Text(v, code, bound), Text(v', code', bound'));
  }

  // ---------------------------------------------------------------- slots and libraries

  /** Both linkings know the same of the libraries that are used, with the same digits. */
  ghost predicate LinksAgree(v: Sources, v': Sources, ts: seq<Token>, links: seq<Link>, links': seq<Link>,
                             bound: nat, bound': nat)
    requires Alike(v, v') && Below(v.world, Some(links), bound) && Below(v'.world, Some(links'), bound')
  {
    && (forall l <- links' :: Used(v, l, ts) ==> l in links)
    && forall l <- links :: Used(v, l, ts) ==>
         l in links' && Digits(v.world, l, bound) == Digits(v'.world, l, bound')
  }

  /** Everything the next lemmas need of two linkings of one code. */
  ghost predicate TwoLinkings(v: Sources, v': Sources, ts: seq<Token>, links: seq<Link>, links': seq<Link>,
                              bound: nat, bound': nat) {
    && Alike(v, v') && Below(v.world, Some(links), bound) && Below(v'.world, Some(links'), bound')
    && DistinctHashes(v.world.h, links) && DistinctHashes(v.world.h, links') && NamesApart(v.world.h, links, links')
    && NoZeros(v, ts, links, links', bound) && NoZeros(v', ts, links', links, bound')
  }

  /** What fills the slot of a library. */
  lemma SlotDigits(v: Sources, links: seq<Link>, bound: nat, l: Link)
    requires Readable(v) && Below(v.world, Some(links), bound) && DistinctHashes(v.world.h, links)
    requires l !in links ==> NamesApart(v.world.h, links, [l])
    ensures Final(Slot(PlaceholderHash(v.world.h, l)), Known(v.world, links, bound))
         == if l in links then Digits(v.world, l, bound) else ZEROS
  {
    var hash := PlaceholderHash(v.world.h, l);
    if l in links {
      KnownLookup(v.world, links, bound, l);
    } else if hash in Known(v.world, links, bound) {
      KnownFrom(v.world, links, bound, hash);
      assert false;
    }
  }

  /** The slot of one library, in both linkings; a library that is not at hand counts as zeros. */
  lemma LinkDigits(v: Sources, v': Sources, ts: seq<Token>, links: seq<Link>, links': seq<Link>,
                   bound: nat, bound': nat, l: Link)
    requires TwoLinkings(v, v', ts, links, links', bound, bound') && (l in links || l in links')
    requires Occurs(v.world.h, l, ts)
    ensures var t := Slot(PlaceholderHash(v.world.h, l));
            Final(t, Known(v.world, links, bound)) == Final(t, Known(v'.world, links', bound'))
            <==> (Used(v, l, ts) ==>
                    l in links && l in links' && Digits(v.world, l, bound) == Digits(v'.world, l, bound'))
  {
    SlotDigits(v, links, bound, l);
    SlotDigits(v', links', bound', l);
  }

  lemma SlotHasLink(v: Sources, v': Sources, ts: seq<Token>, links: seq<Link>, links': seq<Link>,
                    bound: nat, bound': nat, t: Token) returns (l: Link)
    requires TwoLinkings(v, v', ts, links, links', bound, bound') && t in ts && t.Slot?
    requires t.hash in Known(v.world, links, bound) || t.hash in Known(v'.world, links', bound')
    ensures (l in links || l in links') && t == Slot(PlaceholderHash(v.world.h, l)) && Occurs(v.world.h, l, ts)
  {
    if t.hash in Known(v.world, links, bound) {
      KnownFrom(v.world, links, bound, t.hash);
      var k :| 0 <= k < |links| && PlaceholderHash(v.world.h, links[k]) == t.hash;
      l := links[k];
    } else {
      KnownFrom(v'.world, links', bound', t.hash);
      var k :| 0 <= k < |links'| && PlaceholderHash(v.world.h, links'[k]) == t.hash;
      l := links'[k];
    }
  }

  lemma SlotAgrees(v: Sources, v': Sources, ts: seq<Token>, links: seq<Link>, links': seq<Link>,
                   bound: nat, bound': nat, t: Token)
    requires TwoLinkings(v, v', ts, links, links', bound, bound') && t in ts
    requires LinksAgree(v, v', ts, links, links', bound, bound')
    ensures Final(t, Known(v.world, links, bound)) == Final(t, Known(v'.world, links', bound'))
  {
    if t.Slot? && (t.hash in Known(v.world, links, bound) || t.hash in Known(v'.world, links', bound')) {
      var l := SlotHasLink(v, v', ts, links, links', bound, bound', t);
      LinkDigits(v, v', ts, links, links', bound, bound', l);
    }
  }

  lemma LinkAgrees(v: Sources, v': Sources, ts: seq<Token>, links: seq<Link>, links': seq<Link>,
                   bound: nat, bound': nat, l: Link)
    requires TwoLinkings(v, v', ts, links, links', bound, bound') && (l in links || l in links') && Used(v, l, ts)
    requires SameDigits(ts, Known(v.world, links, bound), Known(v'.world, links', bound'))
    ensures l in links && l in links' && Digits(v.world, l, bound) == Digits(v'.world, l, bound')
  {
    LinkDigits(v, v', ts, links, links', bound, bound', l);
    var i :| 0 <= i < |ts| && ts[i] == Slot(PlaceholderHash(v.world.h, l));
  }

  /** Only the slots of libraries at hand can hold different digits in two states. */
  lemma SlotsAreLinks(v: Sources, v': Sources, ts: seq<Token>, links: seq<Link>, links': seq<Link>,
                      bound: nat, bound': nat)
    requires TwoLinkings(v, v', ts, links, links', bound, bound')
    ensures SameDigits(ts, Known(v.world, links, bound), Known(v'.world, links', bound'))
       <==> LinksAgree(v, v', ts, links, links', bound, bound')
  {
    if LinksAgree(v, v', ts, links, links', bound, bound') {
      forall i | 0 <= i < |ts|
        ensures Final(ts[i], Known(v.world, links, bound)) == Final(ts[i], Known(v'.world, links', bound'))
      {
        SlotAgrees(v, v', ts, links, links', bound, bound', ts[i]);
      }
    } else if SameDigits(ts, Known(v.world, links, bound), Known(v'.world, links', bound')) {
      forall l | (l in links || l in links') && Used(v, l, ts)
        ensures l in links && l in links' && Digits(v.world, l, bound) == Digits(v'.world, l, bound')
      {
        LinkAgrees(v, v', ts, links, links', bound, bound', l);
      }
    }
  }

  // ---------------------------------------------------------------- the theorem

  /** Different code has different text: by its length, or because the slots are in the same places. */
  lemma DifferentCodeDifferentText(v: Sources, v': Sources, code: Code, code': Code, bound: nat, bound': nat)
    requires Alike(v, v') && Fits(v, code, bound) && Fits(v', code', bound')
    requires |Render(code.tokens)| == |Render(code'.tokens)| ==> Aligned(code.tokens, code'.tokens)
    requires code.tokens != code'.tokens
    ensures Text(v, code, bound) != Text(v', code', bound')
  {
    var known, known' := Known(v.world, code.links, bound), Known(v'.world, code'.links, bound');
    FinishedShape(code.tokens, known);
    FinishedShape(code'.tokens, known');
    if Aligned(code.tokens, code'.tokens) {
      FinishedDetermines(code.tokens, code'.tokens, known, known');
    }
  }

  lemma AlignedWithItself(ts: seq<Token>)
    ensures Aligned(ts, ts)
  {
  }

  /** The same code has the same text exactly when the libraries agree. */
  lemma SameTextIff(v: Sources, v': Sources, code: Code, code': Code, bound: nat, bound': nat)
    requires TwoLinkings(v, v', code.tokens, code.links, code'.links, bound, bound')
    requires Fits(v, code, bound) && Fits(v', code', bound') && code.tokens == code'.tokens
    ensures Text(v, code, bound) == Text(v', code', bound')
       <==> LinksAgree(v, v', code.tokens, code.links, code'.links, bound, bound')
  {
    var ts := code.tokens;
    AlignedWithItself(ts);
    FinishedDetermines(ts, ts, Known(v.world, code.links, bound), Known(v'.world, code'.links, bound'));
    SlotsAreLinks(v, v', ts, code.links, code'.links, bound, bound');
  }

  /**
   * The fingerprint changes exactly when the stripped code changes, of the contract or of any
   * library reachable through placeholders that occur, or which of these are linked: for edits that
   * change the length, the libraries, or anything but the places of slots in code of the same length.
   */
  lemma {:induction false} FingerprintDeterminesCode(v: Sources, v': Sources, code: Code, code': Code,
                                                     bound: nat, bound': nat)
    requires Alike(v, v') && Fits(v, code, bound) && Fits(v', code', bound')
    requires Comparable(v, v', code, code', bound, bound')
    ensures HashOf(v, code, bound) == HashOf(v', code', bound') <==> SameCode(v, v', code, code', bound)
    decreases bound, 1
  {
    FingerprintsAgreeIff(v, v', code, code', bound, bound');
    if code.tokens != code'.tokens {
      DifferentCodeDifferentText(v, v', code, code', bound, bound');
    } else {
      SameTextIff(v, v', code, code', bound, bound');
      forall l | l in code.links && l in code'.links && Used(v, l, code.tokens)
        ensures Digits(v.world, l, bound) == Digits(v'.world, l, bound')
           <==> SameCode(v, v', CodeOf(v, l), CodeOf(v', l), v.world.rank(l))
      {
        DigitsDetermineCode(v, v', l, bound, bound');
      }
    }
  }

  lemma {:induction false} DigitsDetermineCode(v: Sources, v': Sources, l: Link, bound: nat, bound': nat)
    requires Alike(v, v') && l in v.tokens && v.world.rank(l) < bound && v'.world.rank(l) < bound'
    requires Comparable(v, v', CodeOf(v, l), CodeOf(v', l), v.world.rank(l), v'.world.rank(l))
    ensures Digits(v.world, l, bound) == Digits(v'.world, l, bound')
       <==> SameCode(v, v', CodeOf(v, l), CodeOf(v', l), v.world.rank(l))
    decreases bound, 0
  {
    var rank, rank' := v.world.rank(l), v'.world.rank(l);
    var lib, lib' := v.world.libs.value[l], v'.world.libs.value[l];
    HashOfIsFingerprint(v, lib.bytecode, lib.links, CodeOf(v, l), rank);
    HashOfIsFingerprint(v', lib'.bytecode, lib'.links, CodeOf(v', l), rank');
    FingerprintsAgreeIff(v, v', CodeOf(v, l), CodeOf(v', l), rank, rank');
    FingerprintDeterminesCode(v, v', CodeOf(v, l), CodeOf(v', l), rank, rank');
  }

  /** Without a resolver no library is at hand. */
  function WithResolver(u: World): World {
    u.(libs := Some(u.libs.GetOr(map[])))
  }

  lemma {:induction false} NothingAtHand(u: World, links: seq<Link>, bound: nat)
    requires u.libs == Some(map[])
    ensures forall hash <- Known(u, links, bound) :: Known(u, links, bound)[hash] == ZEROS
  {
    if links != [] {
      NothingAtHand(u, links[..|links| - 1], bound);
    }
  }

  /** A missing resolver has the effect of one that finds nothing. */
  lemma NoResolver(u: World, bytecode: string, ts: seq<Token>, links: Option<seq<Link>>, bound: nat)
    requires Acyclic(u) && Below(u, links, bound) && AllProper(ts) && StripMetadata(bytecode) == Render(ts)
    ensures Acyclic(WithResolver(u)) && Below(WithResolver(u), links, bound)
    ensures Fingerprint(WithResolver(u), bytecode, links, bound) == Fingerprint(u, bytecode, links, bound)
  {
    var u' := WithResolver(u);
    if u.libs.Some? {
      assert u' == u;
    } else {
      SubstitutionIsSimultaneous(u, ts, links, bound);
      SubstitutionIsSimultaneous(u', ts, links, bound);
      if links.Some? {
        NothingAtHand(u', links.value, bound);
      }
      AlignedWithItself(ts);
      FinishedDetermines(ts, ts, AllKnown(u, links, bound), AllKnown(u', links, bound));
    }
  }

  /** The same for the fingerprints of two artifacts, with a resolver and link references or without. */
  lemma CodeChangeIsNoticed(u: World, u': World, v: Sources, v': Sources, bytecode: string, bytecode': string,
                            links: Option<seq<Link>>, links': Option<seq<Link>>, code: Code, code': Code,
                            bound: nat, bound': nat)
    requires v.world == WithResolver(u) && v'.world == WithResolver(u')
    requires Alike(v, v') && Fits(v, code, bound) && Fits(v', code', bound')
    requires StripMetadata(bytecode) == Render(code.tokens) && StripMetadata(bytecode') == Render(code'.tokens)
    requires code.links == links.GetOr([]) && code'.links == links'.GetOr([])
    requires Comparable(v, v', code, code', bound, bound')
    ensures Acyclic(u) && Below(u, links, bound) && Acyclic(u') && Below(u', links', bound')
    ensures Fingerprint(u, bytecode, links, bound) == Fingerprint(u', bytecode', links', bound')
       <==> SameCode(v, v', code, code', bound)
  {
    NoResolver(u, bytecode, code.tokens, links, bound);
    NoResolver(u', bytecode', code'.tokens, links', bound');
    HashOfIsFingerprint(v, bytecode, links, code, bound);
    HashOfIsFingerprint(v', bytecode', links', code', bound');
    FingerprintDeterminesCode(v, v', code, code', bound, bound');
  }

  // ---------------------------------------------------------------- where it fails

  lemma FinishedCons(t: Token, ts: seq<Token>, known: map<string, string>)
    ensures Finished([t] + ts, known) == Final(t, known) + Finished(ts, known)
  {
    assert ([t] + ts)[1..] == ts;
  }

  lemma {:induction false} FinishedConcat(a: seq<Token>, b: seq<Token>, known: map<string, string>)
    ensures Finished(a + b, known) == Finished(a, known) + Finished(b, known)
  {
    if a == [] {
      Sequences.Unit(b);
      Sequences.Unit(Finished(b, known));
    } else {
      FinishedConcat(a[1..], b, known);
      FinishedCons(a[0], a[1..] + b, known);
      Sequences.HeadTail(a);
      Sequences.Associates([a[0]], a[1..], b);
      Sequences.Associates(Final(a[0], known), Finished(a[1..], known), Finished(b, known));
    }
  }

  lemma {:induction false} PlainsFinish(s: string, known: map<string, string>)
    ensures Finished(Plains(s), known) == s
  {
    if s != "" {
      PlainsFinish(s[1..], known);
      PlainsCons(s);
      assert Plains(s)[1..] == Plains(s[1..]);
      Sequences.HeadTail(s);
    }
  }

  lemma RenderCons(t: Token, ts: seq<Token>)
    ensures Render([t] + ts) == Shown(t) + Render(ts)
  {
    assert ([t] + ts)[1..] == ts;
  }

  lemma {:induction false} RenderConcat(a: seq<Token>, b: seq<Token>)
    ensures Render(a + b) == Render(a) + Render(b)
  {
    if a == [] {
      Sequences.Unit(b);
      Sequences.Unit(Render(b));
    } else {
      RenderConcat(a[1..], b);
      RenderCons(a[0], a[1..] + b);
      Sequences.HeadTail(a);
      Sequences.Associates([a[0]], a[1..], b);
      Sequences.Associates(Shown(a[0]), Render(a[1..]), Render(b));
    }
  }

  lemma {:induction false} PlainsRender(s: string)
    ensures Render(Plains(s)) == s
  {
    if s != "" {
      PlainsRender(s[1..]);
      PlainsCons(s);
      assert Plains(s)[1..] == Plains(s[1..]);
      Sequences.HeadTail(s);
    }
  }

  /** The code with the slot at `i` written out as the digits it stands for. */
  function WrittenOut(ts: seq<Token>, i: nat, known: map<string, string>): seq<Token>
    requires i < |ts| && ts[i].Slot? && ts[i].hash in known
  {
    ts[..i] + (Plains(known[ts[i].hash]) + ts[i + 1..])
  }

  lemma WrittenOutText(ts: seq<Token>, i: nat, known: map<string, string>)
    requires i < |ts| && ts[i].Slot? && ts[i].hash in known
    ensures Finished(WrittenOut(ts, i, known), known) == Finished(ts, known)
  {
    var digits, rest := known[ts[i].hash], ts[i + 1..];
    FinishedConcat(ts[..i], Plains(digits) + rest, known);
    FinishedConcat(Plains(digits), rest, known);
    PlainsFinish(digits, known);
    Sequences.Around(ts, i);
    FinishedConcat(ts[..i], [ts[i]] + rest, known);
    FinishedCons(ts[i], rest, known);
  }

  lemma WrittenOutProper(ts: seq<Token>, i: nat, known: map<string, string>)
    requires AllProper(ts) && AreDigits(known) && i < |ts| && ts[i].Slot? && ts[i].hash in known
    ensures AllProper(WrittenOut(ts, i, known))
  {
  }

  /** Rendered, the two differ in the part of the slot only. */
  lemma WrittenOutRendered(ts: seq<Token>, i: nat, known: map<string, string>)
    requires i < |ts| && ts[i].Slot? && ts[i].hash in known
    ensures Render(ts) == Render(ts[..i]) + (Placeholder(ts[i].hash) + Render(ts[i + 1..]))
    ensures Render(WrittenOut(ts, i, known)) == Render(ts[..i]) + (known[ts[i].hash] + Render(ts[i + 1..]))
  {
    var digits, rest := known[ts[i].hash], ts[i + 1..];
    RenderConcat(ts[..i], Plains(digits) + rest);
    RenderConcat(Plains(digits), rest);
    PlainsRender(digits);
    Sequences.Around(ts, i);
    RenderConcat(ts[..i], [ts[i]] + rest);
    RenderCons(ts[i], rest);
  }

  lemma WrittenOutDiffers(ts: seq<Token>, i: nat, known: map<string, string>)
    requires AllProper(ts) && AreDigits(known) && i < |ts| && ts[i].Slot? && ts[i].hash in known
    ensures |Render(WrittenOut(ts, i, known))| == |Render(ts)| && Render(WrittenOut(ts, i, known)) != Render(ts)
  {
    WrittenOutRendered(ts, i, known);
    assert Proper(ts[i]);
    ShownSlot(ts[i].hash);
    PartsDiffer(Render(ts[..i]), Placeholder(ts[i].hash), known[ts[i].hash], Render(ts[i + 1..]));
  }

  lemma PartsDiffer(a: string, x: string, y: string, b: string)
    requires |x| == |y| > 0 && x[0] != y[0]
    ensures |a + (x + b)| == |a + (y + b)| && a + (x + b) != a + (y + b)
  {
    assert (a + (x + b))[|a|] == x[0] && (a + (y + b))[|a|] == y[0];
  }

  /**
   * Where it fails, for every code and every slot of a known library: written out as the digits it
   * stands for, the code is different, of the same length and with the same fingerprint. These
   * digits stay when the library changes.
   */
  lemma LiteralDigitsLookLinked(v: Sources, code: Code, bound: nat, i: nat)
    requires Fits(v, code, bound) && i < |code.tokens| && code.tokens[i].Slot?
    requires code.tokens[i].hash in Known(v.world, code.links, bound)
    ensures var literal := Code(WrittenOut(code.tokens, i, Known(v.world, code.links, bound)), code.links);
            && Fits(v, literal, bound)
            && Render(literal.tokens) != Render(code.tokens) && |Render(literal.tokens)| == |Render(code.tokens)|
            && !Aligned(literal.tokens, code.tokens)
            && HashOf(v, literal, bound) == HashOf(v, code, bound)
  {
    var known := Known(v.world, code.links, bound);
    WrittenOutText(code.tokens, i, known);
    WrittenOutProper(code.tokens, i, known);
    WrittenOutDiffers(code.tokens, i, known);
    assert |WrittenOut(code.tokens, i, known)| == |code.tokens| + 39;
  }

  /** The other case left out: the prefix itself does not count as code. */
  lemma PrefixDoesNotMatter(v: Sources, code: Code, bound: nat)
    requires Fits(v, code, bound) && !Has0x(Render(code.tokens))
    ensures var prefixed := Code([Plain('0')] + ([Plain('x')] + code.tokens), code.links);
            Fits(v, prefixed, bound) && HashOf(v, prefixed, bound) == HashOf(v, code, bound)
  {
    var known := Known(v.world, code.links, bound);
    PrefixedText(code.tokens, known);
    FinishedPrefix(code.tokens, known);
    PrefixSlices("0x", Text(v, code, bound));
  }

  lemma PrefixedText(ts: seq<Token>, known: map<string, string>)
    ensures Finished([Plain('0')] + ([Plain('x')] + ts), known) == "0x" + Finished(ts, known)
  {
    FinishedCons(Plain('0'), [Plain('x')] + ts, known);
    FinishedCons(Plain('x'), ts, known);
    assert ['0'] + (['x'] + Finished(ts, known)) == "0x" + Finished(ts, known);
  }
}
