/** Positional addressing in a collection tree, and the splices of `internal/session/items.go`
    (cut a node out, paste one in) as functions on containers. */
module Tree {
  import opened Text
  import opened Model

  /** One segment of a node ID after the collection index: "f3" is F(3), "r0" is R(0). */
  datatype Seg = F(i: int) | R(i: int)

  datatype Node = FolderNode(folder: Folder) | RequestNode(request: Request)

  // ----- containers -----

  predicate Opens(c: Container, s: Seg) {
    s.F? && 0 <= s.i < |c.folders|
  }

  function Sub(c: Container, s: Seg): Container
    requires Opens(c, s)
  {
    c.folders[s.i].items
  }

  function SetSub(c: Container, s: Seg, d: Container): Container
    requires Opens(c, s)
  {
    c.(folders := c.folders[s.i := c.folders[s.i].(items := d)])
  }

  /** Does p address a container below c (every segment an existing folder)? */
  predicate IsContainer(c: Container, p: seq<Seg>) {
    p == [] || (Opens(c, p[0]) && IsContainer(Sub(c, p[0]), p[1..]))
  }

  function At(c: Container, p: seq<Seg>): Container
    requires IsContainer(c, p)
  {
    if p == [] then c else At(Sub(c, p[0]), p[1..])
  }

  /** c with the container at p replaced by d: what writing through a slice pointer does. */
  function Graft(c: Container, p: seq<Seg>, d: Container): Container
    requires IsContainer(c, p)
  {
    if p == [] then d else SetSub(c, p[0], Graft(Sub(c, p[0]), p[1..], d))
  }

  lemma GraftAt(c: Container, p: seq<Seg>, d: Container)
    requires IsContainer(c, p)
    ensures IsContainer(Graft(c, p, d), p)
    ensures At(Graft(c, p, d), p) == d
    ensures forall e :: Graft(Graft(c, p, d), p, e) == Graft(c, p, e)
    ensures Graft(c, p, At(c, p)) == c
  {
    if p != [] {
      GraftAt(Sub(c, p[0]), p[1..], d);
    }
  }

  // ----- children of one container -----

  predicate InRange(c: Container, s: Seg) {
    0 <= s.i < if s.F? then |c.folders| else |c.requests|
  }

  function ChildAt(c: Container, s: Seg): Node
    requires InRange(c, s)
  {
    if s.F? then FolderNode(c.folders[s.i]) else RequestNode(c.requests[s.i])
  }

  function CutChild(c: Container, s: Seg): Container
    requires InRange(c, s)
  {
    if s.F? then c.(folders := Delete(c.folders, s.i)) else c.(requests := Delete(c.requests, s.i))
  }

  predicate Fits(c: Container, s: Seg, n: Node) {
    && s.F? == n.FolderNode?
    && 0 <= s.i <= if s.F? then |c.folders| else |c.requests|
  }

  function PasteChild(c: Container, s: Seg, n: Node): Container
    requires Fits(c, s, n)
  {
    if s.F? then c.(folders := Insert(c.folders, s.i, n.folder))
    else c.(requests := Insert(c.requests, s.i, n.request))
  }

  // ----- nodes anywhere in the tree -----

  function Parent(a: seq<Seg>): seq<Seg>
    requires a != []
  {
    a[..|a| - 1]
  }

  function Last(a: seq<Seg>): Seg
    requires a != []
  {
    a[|a| - 1]
  }

  predicate Has(c: Container, a: seq<Seg>) {
    a != [] && IsContainer(c, Parent(a)) && InRange(At(c, Parent(a)), Last(a))
  }

  function Pick(c: Container, a: seq<Seg>): Node
    requires Has(c, a)
  {
    ChildAt(At(c, Parent(a)), Last(a))
  }

  function Cut(c: Container, a: seq<Seg>): Container
    requires Has(c, a)
  {
    Graft(c, Parent(a), CutChild(At(c, Parent(a)), Last(a)))
  }

  predicate CanPaste(c: Container, a: seq<Seg>, n: Node) {
    a != [] && IsContainer(c, Parent(a)) && Fits(At(c, Parent(a)), Last(a), n)
  }

  function Paste(c: Container, a: seq<Seg>, n: Node): Container
    requires CanPaste(c, a, n)
  {
    Graft(c, Parent(a), PasteChild(At(c, Parent(a)), Last(a), n))
  }

  /** One step of every induction over an address. */
  lemma Descend(c: Container, a: seq<Seg>)
    requires |a| > 1
    ensures Parent(a)[0] == a[0] && Parent(a)[1..] == Parent(a[1..]) && Last(a) == Last(a[1..])
    ensures Has(c, a) <==> Opens(c, a[0]) && Has(Sub(c, a[0]), a[1..])
    ensures Has(c, a) ==> Pick(c, a) == Pick(Sub(c, a[0]), a[1..])
    ensures Has(c, a) ==> Cut(c, a) == SetSub(c, a[0], Cut(Sub(c, a[0]), a[1..]))
  {
    assert Parent(a)[1..] == Parent(a[1..]);
  }

  /** The model ID of the folder p addresses, "" for the root. */
  function ContainerID(c: Container, p: seq<Seg>): string
    requires IsContainer(c, p)
  {
    if p == [] then ""
    else if |p| == 1 then c.folders[p[0].i].id
    else ContainerID(Sub(c, p[0]), p[1..])
  }

  lemma ContainerIsFolder(c: Container, p: seq<Seg>)
    requires p != []
    ensures IsContainer(c, p) <==> Has(c, p) && Last(p).F?
    ensures IsContainer(c, p) ==> Pick(c, p).folder.items == At(c, p)
    ensures IsContainer(c, p) ==> Pick(c, p).folder.id == ContainerID(c, p)
    decreases |p|
  {
    if |p| > 1 {
      Descend(c, p);
      ContainerIsFolder(if Opens(c, p[0]) then Sub(c, p[0]) else EMPTY, p[1..]);
    } else {
      assert Parent(p) == [];
    }
  }

  /** Pasting and then cutting at the same address changes nothing ... */
  lemma CutPaste(c: Container, a: seq<Seg>, n: Node)
    requires CanPaste(c, a, n)
    ensures Has(Paste(c, a, n), a)
    ensures Pick(Paste(c, a, n), a) == n
    ensures Cut(Paste(c, a, n), a) == c
  {
    var d := At(c, Parent(a));
    var e := PasteChild(d, Last(a), n);
    GraftAt(c, Parent(a), e);
    assert CutChild(e, Last(a)) == d;
  }

  /** ... and neither does cutting a node and pasting it back: delete then undo. */
  lemma PasteCut(c: Container, a: seq<Seg>)
    requires Has(c, a)
    ensures CanPaste(Cut(c, a), a, Pick(c, a))
    ensures Paste(Cut(c, a), a, Pick(c, a)) == c
  {
    var d := At(c, Parent(a));
    var e := CutChild(d, Last(a));
    GraftAt(c, Parent(a), e);
    assert PasteChild(e, Last(a), Pick(c, a)) == d;
  }

  // ----- where a container goes when a node is cut -----

  /** The address that container p has after the node at a was cut out. */
  function Shift(p: seq<Seg>, a: seq<Seg>): seq<Seg>
    requires a != []
  {
    if p == [] then []
    else if |a| == 1 then
      if a[0].F? && p[0].F? && p[0].i > a[0].i then [F(p[0].i - 1)] + p[1..] else p
    else if a[0] == p[0] then [p[0]] + Shift(p[1..], a[1..])
    else p
  }

  lemma PrefixStep<T>(p: seq<T>, q: seq<T>)
    requires p != [] && q != []
    ensures p <= q <==> p[0] == q[0] && p[1..] <= q[1..]
  {
    assert p == [p[0]] + p[1..] && q == [q[0]] + q[1..];
  }

  /** Cutting a child of the root itself. */
  lemma ShiftTracksHere(c: Container, p: seq<Seg>, a: seq<Seg>)
    requires p != [] && |a| == 1
    requires IsContainer(c, p) && Has(c, a) && !(a <= p)
    ensures !(p <= a)
    ensures IsContainer(Cut(c, a), Shift(p, a))
    ensures At(Cut(c, a), Shift(p, a)) == At(c, p)
    ensures ContainerID(Cut(c, a), Shift(p, a)) == ContainerID(c, p)
  {
    assert Parent(a) == [];
    assert Shift(p, a)[1..] == p[1..];
    assert p <= a ==> p == a;
  }

  lemma {:induction false} ShiftTracks(c: Container, p: seq<Seg>, a: seq<Seg>)
    requires IsContainer(c, p) && Has(c, a) && !(a <= p)
    ensures IsContainer(Cut(c, a), Shift(p, a))
    ensures p <= a ==> Has(At(c, p), a[|p|..])
    ensures At(Cut(c, a), Shift(p, a)) == if p <= a then Cut(At(c, p), a[|p|..]) else At(c, p)
    ensures ContainerID(Cut(c, a), Shift(p, a)) == ContainerID(c, p)
    decreases |p|
  {
    if p == [] {
      assert a[0..] == a;
    } else if |a| == 1 {
      ShiftTracksHere(c, p, a);
    } else {
      hide InRange, CutChild, Parent, Last, Has, Cut;
      Descend(c, a);
      PrefixStep(p, a);
      PrefixStep(a, p);
      if a[0] == p[0] {
        ShiftTracks(Sub(c, p[0]), p[1..], a[1..]);
        assert p <= a ==> a[|p|..] == a[1..][|p[1..]|..];
        assert Shift(p, a)[1..] == Shift(p[1..], a[1..]);
      }
    }
  }
}
