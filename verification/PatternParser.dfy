/** A parser for the printed patterns. It inverts the printer, so a pattern text has one tree. The parser is recursive
    descent, one function per layer of the grammar; for each layer there is a lemma that the text of a tree, followed by
    anything that can follow it, parses to that tree and leaves the rest. */
module PatternParser {
  import opened Patterns

  datatype Parsed<T> = Bad | Good(value: T, rest: string)

  predicate IsMeta(c: char) {
    IsQuant(c) || IsAnchor(c) || c == '(' || c == ')' || c == '|' || c == '[' || c == ']' || c == '.'
  }

  /** The assumption on the alphabet: none of its letters is a metacharacter. */
  predicate Plainness(alphabet: string) {
    forall c :: c in alphabet ==> !IsMeta(c)
  }

  function ParseAtom(alphabet: string, s: string): (p: Parsed<Atom>)
    ensures p.Good? ==> |p.rest| < |s|
    decreases |s|, 0
  {
    var inClass, notInClass := "[" + alphabet + "]", "[^" + alphabet + "]";
    if s == "" then Bad
    else if s[0] == '.' then Good(Plain(AnyChar), s[1..])
    else if notInClass <= s then Good(Plain(NotInClass), s[|notInClass|..])
    else if inClass <= s then Good(Plain(InClass), s[|inClass|..])
    else if s[0] == '(' then
      match ParseAlt(alphabet, s[1..])
      case Bad => Bad
      case Good(x, r) => if r != "" && r[0] == ')' then Good(Group(x), r[1..]) else Bad
    else if s[0] in alphabet then Good(Plain(Letter(s[0])), s[1..])
    else Bad
  }

  function ParseElem(alphabet: string, s: string): (p: Parsed<Elem>)
    ensures p.Good? ==> |p.rest| < |s|
    decreases |s|, 1
  {
    if s != "" && IsAnchor(s[0]) then Good(Anchor(s[0]), s[1..])
    else
      match ParseAtom(alphabet, s)
      case Bad => Bad
      case Good(a, r) =>
        if r != "" && IsQuant(r[0]) then Good(Repeat(a, r[0]), r[1..]) else Good(Once(a), r)
  }

  predicate BranchEnds(s: string) {
    s == "" || s[0] == '|' || s[0] == ')'
  }

  function ParseChain(alphabet: string, s: string): (p: Parsed<Chain>)
    ensures p.Good? ==> |p.rest| <= |s|
    decreases |s|, 2
  {
    if BranchEnds(s) then Good(End, s)
    else
      match ParseElem(alphabet, s)
      case Bad => Bad
      case Good(e, r) =>
        match ParseChain(alphabet, r)
        case Bad => Bad
        case Good(c, r') => Good(Link(e, c), r')
  }

  function ParseAlt(alphabet: string, s: string): (p: Parsed<Alt>)
    ensures p.Good? ==> |p.rest| <= |s|
    decreases |s|, 3
  {
    match ParseChain(alphabet, s)
    case Bad => Bad
    case Good(b, r) =>
      if r != "" && r[0] == '|' then
        match ParseAlt(alphabet, r[1..])
        case Bad => Bad
        case Good(x, r') => Good(Bar(b, x), r')
      else Good(Only(b), r)
  }

  // --- the parser undoes the printer ---

  /** The trees the printer is injective on: letters of the alphabet, real anchors and quantifiers. */
  ghost predicate AtomSpelt(alphabet: string, a: Atom) {
    match a
    case Plain(Letter(c)) => c in alphabet
    case Plain(_) => true
    case Group(x) => AltSpelt(alphabet, x)
  }

  ghost predicate ElemSpelt(alphabet: string, e: Elem) {
    match e
    case Anchor(m) => IsAnchor(m)
    case Once(a) => AtomSpelt(alphabet, a)
    case Repeat(a, q) => IsQuant(q) && AtomSpelt(alphabet, a)
  }

  ghost predicate ChainSpelt(alphabet: string, c: Chain) {
    match c
    case End => true
    case Link(e, r) => ElemSpelt(alphabet, e) && ChainSpelt(alphabet, r)
  }

  ghost predicate AltSpelt(alphabet: string, x: Alt) {
    match x
    case Only(b) => ChainSpelt(alphabet, b)
    case Bar(b, r) => ChainSpelt(alphabet, b) && AltSpelt(alphabet, r)
  }

  lemma {:induction false} AtomParses(alphabet: string, a: Atom, t: string)
    requires Plainness(alphabet) && AtomSpelt(alphabet, a)
    ensures AtomText(alphabet, a) != "" && !BranchEnds(AtomText(alphabet, a))
    ensures !IsQuant(AtomText(alphabet, a)[0]) && !IsAnchor(AtomText(alphabet, a)[0])
    ensures ParseAtom(alphabet, AtomText(alphabet, a) + t) == Good(a, t)
  {
    var s := AtomText(alphabet, a) + t;
    match a {
      case Plain(Letter(c)) =>
        assert s[0] == c && s[1..] == t;
      case Plain(AnyChar) =>
        assert s[1..] == t;
      case Plain(InClass) => ClassParses(alphabet, t);
      case Plain(NotInClass) =>
        var n := "[^" + alphabet + "]";
        assert s == n + t && s[|n|..] == t;
      case Group(x) =>
        AltParses(alphabet, x, ")" + t);
        assert s[1..] == AltText(alphabet, x) + (")" + t);
        assert (")" + t)[1..] == t;
    }
  }

  lemma {:induction false} ClassParses(alphabet: string, t: string)
    requires Plainness(alphabet)
    ensures ParseAtom(alphabet, "[" + alphabet + "]" + t) == Good(Plain(InClass), t)
  {
    var n, not := "[" + alphabet + "]", "[^" + alphabet + "]";
    var s := n + t;
    assert s[|n|..] == t;
    assert s[1] == if alphabet == "" then ']' else alphabet[0];
    assert alphabet != "" ==> alphabet[0] in alphabet;
    assert s[1] != '^' && not[1] == '^';
  }

  lemma {:induction false} ElemParses(alphabet: string, e: Elem, t: string)
    requires Plainness(alphabet) && ElemSpelt(alphabet, e)
    requires t == "" || !IsQuant(t[0])
    ensures ElemText(alphabet, e) != "" && !BranchEnds(ElemText(alphabet, e)) && !IsQuant(ElemText(alphabet, e)[0])
    ensures ParseElem(alphabet, ElemText(alphabet, e) + t) == Good(e, t)
  {
    match e {
      case Anchor(m) =>
        assert ([m] + t)[1..] == t;
      case Once(a) => AtomParses(alphabet, a, t);
      case Repeat(a, q) =>
        AtomParses(alphabet, a, [q] + t);
        assert ElemText(alphabet, e) + t == AtomText(alphabet, a) + ([q] + t);
        assert ([q] + t)[1..] == t;
    }
  }

  lemma {:induction false} LinkParses(alphabet: string, s: string, e: Elem, after: string, r: Chain, t: string)
    requires !BranchEnds(s) && ParseElem(alphabet, s) == Good(e, after) && ParseChain(alphabet, after) == Good(r, t)
    ensures ParseChain(alphabet, s) == Good(Link(e, r), t)
  {
  }

  lemma {:induction false} ChainParses(alphabet: string, c: Chain, t: string)
    requires Plainness(alphabet) && ChainSpelt(alphabet, c) && BranchEnds(t)
    ensures ChainText(alphabet, c) == "" <==> c == End
    ensures ChainText(alphabet, c) != "" ==> !IsQuant(ChainText(alphabet, c)[0])
    ensures ParseChain(alphabet, ChainText(alphabet, c) + t) == Good(c, t)
  {
    hide ParseElem, ElemText, ElemSpelt, IsMeta;
    match c {
      case End =>
        assert ChainText(alphabet, c) + t == t;
      case Link(e, r) =>
        ChainParses(alphabet, r, t);
        var after := ChainText(alphabet, r) + t;
        ElemParses(alphabet, e, after);
        assert ChainText(alphabet, c) + t == ElemText(alphabet, e) + after;
        LinkParses(alphabet, ElemText(alphabet, e) + after, e, after, r, t);
    }
  }

  lemma {:induction false} AltParses(alphabet: string, x: Alt, t: string)
    requires Plainness(alphabet) && AltSpelt(alphabet, x)
    requires t == "" || t[0] == ')'
    ensures ParseAlt(alphabet, AltText(alphabet, x) + t) == Good(x, t)
  {
    hide ParseChain, ChainText, ChainSpelt;
    match x {
      case Only(b) => ChainParses(alphabet, b, t);
      case Bar(b, r) =>
        AltParses(alphabet, r, t);
        var after := "|" + (AltText(alphabet, r) + t);
        ChainParses(alphabet, b, after);
        assert AltText(alphabet, x) + t == ChainText(alphabet, b) + after;
        assert after[1..] == AltText(alphabet, r) + t;
    }
  }

  // --- trees of the grammar are spelt ---

  lemma {:induction false} AltInSpelt(g: Grammar, x: Alt)
    requires BranchesIn(g, x)
    ensures AltSpelt(g.alphabet, x)
  {
    match x {
      case Only(b) => ChainInSpelt(g, b);
      case Bar(b, r) => ChainInSpelt(g, b); AltInSpelt(g, r);
    }
  }

  lemma {:induction false} ChainInSpelt(g: Grammar, c: Chain)
    requires ChainIn(g, c)
    ensures ChainSpelt(g.alphabet, c)
  {
    match c {
      case End =>
      case Link(e, r) =>
        ChainInSpelt(g, r);
        match e {
          case Anchor(_) =>
          case Once(a) => AtomInSpelt(g, a);
          case Repeat(a, _) => AtomInSpelt(g, a);
        }
    }
  }

  lemma {:induction false} AtomInSpelt(g: Grammar, a: Atom)
    requires AtomIn(g, a)
    ensures AtomSpelt(g.alphabet, a)
  {
    if a.Group? {
      AltInSpelt(g, a.inner);
    }
  }

  /** Printing is unambiguous: two trees of the grammar with one text are one tree. */
  lemma {:induction false} Unambiguous(g: Grammar, x: Alt, y: Alt)
    requires Plainness(g.alphabet) && BranchesIn(g, x) && BranchesIn(g, y)
    requires AltText(g.alphabet, x) == AltText(g.alphabet, y)
    ensures x == y
  {
    AltInSpelt(g, x);
    AltInSpelt(g, y);
    AltParses(g.alphabet, x, "");
    AltParses(g.alphabet, y, "");
    assert AltText(g.alphabet, x) + "" == AltText(g.alphabet, x);
    assert AltText(g.alphabet, y) + "" == AltText(g.alphabet, y);
  }
}
