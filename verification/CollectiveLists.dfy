// Lists of collectives, how they are printed, and why comparing the printed form is comparing lists.
module CollectiveLists {

  import opened Sequences

  // A collective, the mark "not a valid set", or the list of a loop.
  datatype Element = Coll(name: string) | Navs | Nested(list: CollectiveList)

  // The header is set for the list of a loop.
  datatype CollectiveList = CollectiveList(header: Option<string>, elems: seq<Element>)

  function Str(e: Element): string
    decreases e
  {
    match e
    case Coll(name) => name
    case Navs => "NAVS"
    case Nested(list) => Print(list)
  }

  function Print(l: CollectiveList): string
    decreases l
  {
    (if l.header.Some? then "*" + l.header.value else "") + "(" + Join(l.elems) + ")"
  }

  function Join(es: seq<Element>): string
    decreases es
  {
    if es == [] then "" else if |es| == 1 then Str(es[0]) else Str(es[0]) + ", " + Join(es[1..])
  }

  // Whether the list is marked: its first element is.
  function IsNavs(l: CollectiveList): bool
    decreases l
  {
    l.elems != [] && match l.elems[0] {
      case Coll(_) => false
      case Navs => true
      case Nested(list) => IsNavs(list)
    }
  }

  // A loop's list goes in as one element, any other list element by element; an empty list does
  // not go in at all.
  function Added(other: CollectiveList): seq<Element> {
    if other.elems == [] then [] else if other.header.Some? then [Nested(other)] else other.elems
  }

  function ExtendWith(l: CollectiveList, other: CollectiveList): CollectiveList {
    l.(elems := l.elems + Added(other))
  }

  function PrependWith(l: CollectiveList, other: CollectiveList): CollectiveList {
    l.(elems := Added(other) + l.elems)
  }

  /* Names are words: not empty, without punctuation, and not the mark. */

  predicate Punctuation(c: char) {
    c == '(' || c == ')' || c == ',' || c == '*'
  }

  predicate IsWord(w: string) {
    w != "" && forall i :: 0 <= i < |w| ==> !Punctuation(w[i])
  }

  ghost predicate CleanElement(e: Element)
    decreases e
  {
    match e
    case Coll(name) => IsWord(name) && name != "NAVS"
    case Navs => true
    case Nested(list) => Clean(list)
  }

  ghost predicate Clean(l: CollectiveList)
    decreases l
  {
    && (l.header.Some? ==> forall i :: 0 <= i < |l.header.value| ==> l.header.value[i] != '(')
    && (forall i :: 0 <= i < |l.elems| ==> CleanElement(l.elems[i]))
  }

  // A text that goes on with one of the stop characters.
  predicate Stops(r: string, stop: set<char>) {
    r != "" && r[0] in stop
  }

  // A word that runs up to the first stop character is determined by the text.
  lemma WordUnique(w1: string, r1: string, w2: string, r2: string, stop: set<char>)
    requires w1 + r1 == w2 + r2 && Stops(r1, stop) && Stops(r2, stop)
    requires forall i :: 0 <= i < |w1| ==> w1[i] !in stop
    requires forall i :: 0 <= i < |w2| ==> w2[i] !in stop
    ensures w1 == w2 && r1 == r2
  {
    var t := w1 + r1;
    assert t[|w1|] == r1[0] && t[|w2|] == r2[0];
    assert forall i :: 0 <= i < |w1| ==> t[i] == w1[i];
    assert forall i :: 0 <= i < |w2| ==> t[i] == w2[i];
    assert t[..|w1|] == w1 && t[|w1|..] == r1;
    assert t[..|w2|] == w2 && t[|w2|..] == r2;
  }

  predicate EndsElement(r: string) {
    Stops(r, {',', ')'})
  }

  // How an element begins: words never with punctuation, nested lists always with it.
  lemma FirstChar(e: Element)
    requires CleanElement(e)
    ensures Str(e) != "" && Str(e)[0] != ')'
    ensures Punctuation(Str(e)[0]) <==> e.Nested?
  {
  }

  lemma {:induction false} ElementUnique(e1: Element, r1: string, e2: Element, r2: string)
    requires CleanElement(e1) && CleanElement(e2) && Str(e1) + r1 == Str(e2) + r2
    requires EndsElement(r1) && EndsElement(r2)
    ensures e1 == e2 && r1 == r2
    decreases e1, 0
  {
    FirstChar(e1);
    FirstChar(e2);
    assert (Str(e1) + r1)[0] == Str(e1)[0] && (Str(e2) + r2)[0] == Str(e2)[0];
    if e1.Nested? {
      PrintUnique(e1.list, r1, e2.list, r2);
    } else {
      WordUnique(Str(e1), r1, Str(e2), r2, {',', ')'});
    }
  }

  // The rest of a list's text, and of the text after it, from its elements on.
  function Tail(es: seq<Element>, r: string): string {
    Join(es) + (")" + r)
  }

  // What follows the first element.
  function AfterFirst(es: seq<Element>, r: string): (t: string)
    ensures EndsElement(t)
  {
    if |es| > 1 then ", " + Tail(es[1..], r) else ")" + r
  }

  lemma Reassociate(a: string, b: string, c: string, d: string)
    ensures a + b + c + d == a + (b + (c + d))
  {
    assert a + b + c + d == a + b + (c + d);
  }

  lemma SplitTail(es: seq<Element>, r: string)
    requires es != []
    ensures Tail(es, r) == Str(es[0]) + AfterFirst(es, r)
  {
    if |es| > 1 {
      Reassociate(Str(es[0]), ", ", Join(es[1..]), ")" + r);
    }
  }

  lemma Cancel(front: string, t1: string, t2: string)
    requires front + t1 == front + t2
    ensures t1 == t2
  {
    assert (front + t1)[|front|..] == t1 && (front + t2)[|front|..] == t2;
  }

  lemma NotEmpty(es: seq<Element>, r: string)
    requires es != [] && CleanElement(es[0])
    ensures Tail(es, r) != "" && Tail(es, r)[0] != ')'
  {
    SplitTail(es, r);
    FirstChar(es[0]);
  }

  // Where the first elements agree the lists end together or go on together.
  lemma SameLength(es1: seq<Element>, r1: string, es2: seq<Element>, r2: string)
    requires es1 != [] && es2 != [] && AfterFirst(es1, r1) == AfterFirst(es2, r2)
    ensures |es1| > 1 <==> |es2| > 1
    ensures if |es1| > 1 then Tail(es1[1..], r1) == Tail(es2[1..], r2) else r1 == r2
  {
    assert AfterFirst(es1, r1)[0] == AfterFirst(es2, r2)[0];
    if |es1| > 1 {
      Cancel(", ", Tail(es1[1..], r1), Tail(es2[1..], r2));
    } else {
      Cancel(")", r1, r2);
    }
  }

  lemma EmptyTail(r: string)
    ensures Tail([], r) == ")" + r
  {
  }

  // An empty list's text does not go on like that of another list.
  lemma BothEmpty(es1: seq<Element>, r1: string, es2: seq<Element>, r2: string)
    requires (es1 != [] ==> CleanElement(es1[0])) && (es2 != [] ==> CleanElement(es2[0]))
    requires Tail(es1, r1) == Tail(es2, r2)
    ensures es1 == [] <==> es2 == []
  {
    EmptyTail(r1);
    EmptyTail(r2);
    hide Tail, CleanElement;
    if es1 != [] {
      NotEmpty(es1, r1);
    }
    if es2 != [] {
      NotEmpty(es2, r2);
    }
  }

  lemma SameFirstAndRest(es1: seq<Element>, es2: seq<Element>)
    requires es1 != [] && es2 != [] && es1[0] == es2[0] && (|es1| > 1 <==> |es2| > 1) && (|es1| > 1 ==> es1[1..] == es2[1..])
    ensures es1 == es2
  {
    assert es1 == [es1[0]] + es1[1..] && es2 == [es2[0]] + es2[1..];
  }

  lemma {:induction false} JoinUnique(es1: seq<Element>, r1: string, es2: seq<Element>, r2: string)
    requires (forall i :: 0 <= i < |es1| ==> CleanElement(es1[i])) && (forall i :: 0 <= i < |es2| ==> CleanElement(es2[i]))
    requires Tail(es1, r1) == Tail(es2, r2)
    ensures es1 == es2 && r1 == r2
    decreases es1, 0
  {
    hide Tail, AfterFirst, CleanElement, Join, Str;
    BothEmpty(es1, r1, es2, r2);
    if es1 == [] {
      EmptyTail(r1);
      EmptyTail(r2);
      Cancel(")", r1, r2);
    } else {
      SplitTail(es1, r1);
      SplitTail(es2, r2);
      ElementUnique(es1[0], AfterFirst(es1, r1), es2[0], AfterFirst(es2, r2));
      SameLength(es1, r1, es2, r2);
      if |es1| > 1 {
        JoinUnique(es1[1..], r1, es2[1..], r2);
      }
      SameFirstAndRest(es1, es2);
    }
  }

  function Head(l: CollectiveList): string {
    if l.header.Some? then "*" + l.header.value else ""
  }

  lemma SplitPrint(l: CollectiveList, r: string)
    ensures Print(l) + r == Head(l) + ("(" + Tail(l.elems, r))
  {
    assert Print(l) == Head(l) + ("(" + (Join(l.elems) + ")"));
  }

  lemma {:induction false} PrintUnique(l1: CollectiveList, r1: string, l2: CollectiveList, r2: string)
    requires Clean(l1) && Clean(l2) && Print(l1) + r1 == Print(l2) + r2
    ensures l1 == l2 && r1 == r2
    decreases l1, 1
  {
    SplitPrint(l1, r1);
    SplitPrint(l2, r2);
    hide Print, Tail, Join;
    WordUnique(Head(l1), "(" + Tail(l1.elems, r1), Head(l2), "(" + Tail(l2.elems, r2), {'('});
    Cancel("(", Tail(l1.elems, r1), Tail(l2.elems, r2));
    if l1.header.Some? {
      Cancel("*", l1.header.value, l2.header.value);
    }
    JoinUnique(l1.elems, r1, l2.elems, r2);
  }

  // Two lists print alike exactly when they are the same list.
  lemma SamePrintSameList(l1: CollectiveList, l2: CollectiveList)
    requires Clean(l1) && Clean(l2)
    ensures Print(l1) == Print(l2) <==> l1 == l2
  {
    if Print(l1) == Print(l2) {
      PrintUnique(l1, "", l2, "");
    }
  }
}
