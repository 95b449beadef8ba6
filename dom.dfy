/**
 * The parsed page as the scraper sees it through BeautifulSoup: a tree of
 * elements and text, walked in document order (`.descendants`), searched for
 * the first match (`find`, `select_one`) and read as text (`get_text`,
 * `.string`).
 */
module Dom {
  import opened Wrappers
  import opened Strings

  /** An element with its lower-cased tag name, attributes and children, or a text string. */
  datatype Node =
    | Element(name: string, attrs: map<string, string>, kids: seq<Node>)
    | Text(text: string)

  /** One step of `.descendants`: a node and the element it sits in (`el.parent`). */
  datatype Visit = Visit(node: Node, parent: Node)

  /** `n.descendants`: every node strictly below `n`, in document (pre-order) order. */
  function Descendants(n: Node): (vs: seq<Visit>)
    decreases n
  {
    match n
    case Text(_) => []
    case Element(_, _, kids) => DescendantsOf(kids, n)
  }

  /** The descendants of a run of siblings under `parent`: each sibling, then what is under it. */
  function DescendantsOf(kids: seq<Node>, parent: Node): (vs: seq<Visit>)
    decreases kids
  {
    if kids == [] then []
    else [Visit(kids[0], parent)] + Descendants(kids[0]) + DescendantsOf(kids[1..], parent)
  }

  /** A piece `get_text(strip=True)` keeps: stripped and not empty. */
  predicate Solid(s: string) {
    s != "" && Trimmed(s)
  }

  predicate AllSolid(ps: seq<string>) {
    forall i :: 0 <= i < |ps| ==> Solid(ps[i])
  }

  /** The text strings under `n` in document order, each stripped, the empty ones dropped. */
  function Pieces(n: Node): (ps: seq<string>)
    ensures AllSolid(ps)
    decreases n
  {
    match n
    case Text(t) => if Strip(t) == "" then [] else [Strip(t)]
    case Element(_, _, kids) => PiecesOf(kids)
  }

  function PiecesOf(kids: seq<Node>): (ps: seq<string>)
    ensures AllSolid(ps)
    decreases kids
  {
    if kids == [] then [] else Pieces(kids[0]) + PiecesOf(kids[1..])
  }

  /** `n.get_text(sep, strip=True)`: the stripped non-empty strings joined by `sep`. */
  function GetText(n: Node, sep: string): string {
    Join(Pieces(n), sep)
  }

  /** Solid pieces join into text with no whitespace at either end, empty only when there are no pieces. */
  lemma {:induction false} JoinSolid(ps: seq<string>, sep: string)
    requires AllSolid(ps)
    ensures Trimmed(Join(ps, sep))
    ensures Join(ps, sep) == "" <==> ps == []
  {
    if |ps| > 1 {
      var rest := Join(ps[1..], sep);
      JoinSolid(ps[1..], sep);
      var j := ps[0] + sep + rest;
      assert j[0] == ps[0][0];
      assert j[|j| - 1] == rest[|rest| - 1];
    }
  }

  /** `get_text(strip=True)` never starts or ends with whitespace, and is empty only for a node without text. */
  lemma GetTextShape(n: Node, sep: string)
    ensures Trimmed(GetText(n, sep))
    ensures GetText(n, sep) == "" <==> Pieces(n) == []
  {
    JoinSolid(Pieces(n), sep);
  }

  /** `tag.string`: the text of a node whose only child, all the way down, is one string. */
  function StringOf(n: Node): (r: Option<string>)
    ensures n.Text? ==> r == Some(n.text)
    ensures n.Element? && |n.kids| != 1 ==> r.None?
    ensures n.Element? && |n.kids| == 1 ==> r == StringOf(n.kids[0])
    decreases n
  {
    match n
    case Text(t) => Some(t)
    case Element(_, _, kids) => if |kids| == 1 then StringOf(kids[0]) else None
  }

  /** `tag.get(key)`: the attribute's value, or None. */
  function Attr(n: Node, key: string): Option<string> {
    if n.Element? && key in n.attrs then Some(n.attrs[key]) else None
  }

  /** `tag.get(key)` when it is truthy: the attribute is present and not empty. */
  function TruthyAttr(n: Node, key: string): (r: Option<string>)
    ensures r.Some? <==> Attr(n, key).Some? && Attr(n, key).value != ""
    ensures r.Some? ==> r == Attr(n, key)
  {
    match Attr(n, key)
    case Some(v) => if v != "" then Some(v) else None
    case None => None
  }

  /** `tag.get(k1) or tag.get(k2) or ...`: the first truthy attribute among `keys`. */
  function FirstTruthyAttr(n: Node, keys: seq<string>): (r: Option<string>)
    ensures r.Some? <==> exists i :: 0 <= i < |keys| && TruthyAttr(n, keys[i]).Some?
    ensures r.Some? ==> exists i :: 0 <= i < |keys| && TruthyAttr(n, keys[i]) == r
                              && forall j :: 0 <= j < i ==> TruthyAttr(n, keys[j]).None?
  {
    if keys == [] then None
    else if TruthyAttr(n, keys[0]).Some? then TruthyAttr(n, keys[0])
    else
      var r := FirstTruthyAttr(n, keys[1..]);
      assert forall i :: 0 < i < |keys| ==> keys[i] == keys[1..][i - 1];
      r
  }

  /** The index of the first element of `xs` satisfying `p`: the first match wins. */
  function FirstWhere<T>(xs: seq<T>, p: T -> bool): (r: Option<nat>)
    ensures r.None? <==> forall j :: 0 <= j < |xs| ==> !p(xs[j])
    ensures r.Some? ==> r.value < |xs| && p(xs[r.value])
    ensures r.Some? ==> forall j :: 0 <= j < r.value ==> !p(xs[j])
  {
    if xs == [] then None
    else if p(xs[0]) then Some(0)
    else
      match FirstWhere(xs[1..], p)
      case None => None
      case Some(i) => Some(i + 1)
  }

  /** There is only one first match. */
  lemma FirstWhereUnique<T>(xs: seq<T>, p: T -> bool, i: nat)
    requires i < |xs| && p(xs[i])
    requires forall j :: 0 <= j < i ==> !p(xs[j])
    ensures FirstWhere(xs, p) == Some(i)
  {
  }

  /** `n.find(...)`: the first descendant in document order that satisfies `p`. */
  function Find(n: Node, p: Node -> bool): (r: Option<Node>)
    ensures r.Some? ==> p(r.value)
    ensures r.None? <==> forall j :: 0 <= j < |Descendants(n)| ==> !p(Descendants(n)[j].node)
    ensures r.Some? ==> exists i :: && 0 <= i < |Descendants(n)| && r.value == Descendants(n)[i].node
                                   && forall j :: 0 <= j < i ==> !p(Descendants(n)[j].node)
  {
    var vs := Descendants(n);
    match FirstWhere(vs, (v: Visit) => p(v.node))
    case None => None
    case Some(i) => Some(vs[i].node)
  }

  /** `find_all(...)`: every descendant that satisfies `p`, in document order. */
  function FindAll(vs: seq<Visit>, p: Node -> bool): (r: seq<Node>)
    ensures |r| <= |vs|
    ensures forall j :: 0 <= j < |r| ==> p(r[j])
    ensures forall j :: 0 <= j < |vs| && p(vs[j].node) ==> vs[j].node in r
    ensures r == [] <==> forall j :: 0 <= j < |vs| ==> !p(vs[j].node)
  {
    if vs == [] then []
    else
      var r := (if p(vs[0].node) then [vs[0].node] else []) + FindAll(vs[1..], p);
      assert forall j :: 1 <= j < |vs| ==> vs[j] == vs[1..][j - 1];
      r
  }

  /** `find_all` keeps document order: the matches of a walk split in two are the matches of each part, in turn. */
  lemma {:induction false} FindAllAppend(a: seq<Visit>, b: seq<Visit>, p: Node -> bool)
    ensures FindAll(a + b, p) == FindAll(a, p) + FindAll(b, p)
  {
    if a == [] {
      assert a + b == b;
    } else {
      assert (a + b)[1..] == a[1..] + b;
      FindAllAppend(a[1..], b, p);
      AppendAssoc(if p(a[0].node) then [a[0].node] else [], FindAll(a[1..], p), FindAll(b, p));
    }
  }

  /** The first node `find_all` returns is the node `find` returns. */
  lemma {:induction false} FindAllFirst(vs: seq<Visit>, p: Node -> bool)
    requires FindAll(vs, p) != []
    ensures FirstWhere(vs, (v: Visit) => p(v.node)).Some?
    ensures FindAll(vs, p)[0] == vs[FirstWhere(vs, (v: Visit) => p(v.node)).value].node
  {
    if !p(vs[0].node) {
      FindAllFirst(vs[1..], p);
      assert FindAll(vs, p) == FindAll(vs[1..], p);
      var q := (v: Visit) => p(v.node);
      assert FirstWhere(vs, q) == (match FirstWhere(vs[1..], q) case None => None case Some(i) => Some(i + 1));
    }
  }

  /** An element with the given tag name. */
  predicate IsTag(n: Node, name: string) {
    n.Element? && n.name == name
  }

  /** The class list of an element: its `class` attribute split on whitespace. */
  function Classes(n: Node): seq<string> {
    match Attr(n, "class")
    case Some(c) => Split(c)
    case None => []
  }
}
