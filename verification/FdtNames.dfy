/**
 What the lookups by name of lib/utils/libfdt/fdt_ro.c find, said of the names themselves: the first child that is
 called so, or is called so up to its unit address, and the first property that is called so.
 */
module FdtNames {
  import opened Options
  import opened FdtFormat
  import opened FdtTree
  import opened FdtEdit
  import opened FdtCommute

  /** The part of a name in front of its first '@'. */
  function Stem(node: seq<byte>): (stem: seq<byte>)
    ensures |stem| <= |node| && stem == node[..|stem|] && 0x40 !in stem
    ensures |stem| < |node| ==> node[|stem|] == 0x40
  {
    if node == [] || node[0] == 0x40 then [] else [node[0]] + Stem(node[1..])
  }

  /** The node is called `name`, or `name` has no unit address and the node is called so in front of its own. */
  predicate Answers(node: seq<byte>, name: seq<byte>) {
    node == name || (0x40 !in name && 0x40 in node && Stem(node) == name)
  }

  /** `fdt_nodename_eq_` on two names. */
  lemma NodeNameEqExactly(node: seq<byte>, name: seq<byte>)
    ensures NodeNameEq(node, name) <==> node == name || (0x40 !in name && exists u :: node == name + [0x40] + u)
    ensures NodeNameEq(node, name) <==> Answers(node, name)
  {
    if NodeNameEq(node, name) {
      if |node| == |name| {
        assert node[..|name|] == node;
      } else {
        assert node == name + [0x40] + node[|name| + 1..];
        StemIs(node, |name|);
      }
    }
    if u :| node == name + [0x40] + u {
      assert node[..|name|] == name && node[|name|] == 0x40;
    }
    assert node[..|node|] == node;
    assert 0x40 in node ==> |Stem(node)| < |node|;
  }

  lemma {:induction false} StemIs(node: seq<byte>, n: nat)
    requires n < |node| && node[n] == 0x40 && 0x40 !in node[..n]
    ensures Stem(node) == node[..n]
  {
    if n > 0 {
      assert node[0] == node[..n][0] && node[1..][..n - 1] == node[..n][1..];
      StemIs(node[1..], n - 1);
    }
  }

  ghost predicate NoneAnswers(f: Forest, name: seq<byte>) {
    forall m: nat :: Leads(f, Right(m)) ==> !ChildAnswers(f, m, name)
  }

  predicate ChildAnswers(f: Forest, m: nat, name: seq<byte>)
    requires Leads(f, Right(m))
  {
    Answers(At(f, Right(m)).name, name)
  }

  /** A child is found exactly if one answers to the name, and then it is the first that does. */
  lemma {:induction false} FirstChildExactly(f: Forest, name: seq<byte>)
    ensures FirstChild(f, name).None? <==> NoneAnswers(f, name)
    ensures FirstChild(f, name).Some? ==>
              var m := FirstChild(f, name).value;
              && Leads(f, Right(m)) && ChildAnswers(f, m, name)
              && forall k: nat :: k < m ==> Leads(f, Right(k)) && !ChildAnswers(f, k, name)
    decreases f
  {
    if f.Tree? {
      NodeNameEqExactly(f.name, name);
      FirstChildExactly(f.rest, name);
      assert Leads(f, Right(0)) && At(f, Right(0)) == f;
      if FirstChild(f, name).None? {
        forall m: nat | Leads(f, Right(m)) ensures !ChildAnswers(f, m, name) {
          Sideways(f, m);
        }
      } else {
        var n := FirstChild(f, name).value;
        Sideways(f, n);
        if n > 0 {
          assert FirstChild(f.rest, name) == Some(n - 1);
        } else {
          assert NodeNameEq(f.name, name);
        }
        assert Leads(f, Right(n)) && ChildAnswers(f, n, name);
        forall k: nat | k < FirstChild(f, name).value ensures Leads(f, Right(k)) && !ChildAnswers(f, k, name) {
          Sideways(f, k);
        }
      }
    }
  }

  lemma Sideways(f: Forest, m: nat)
    requires f.Tree?
    ensures m > 0 ==> (Leads(f, Right(m)) <==> Leads(f.rest, Right(m - 1)))
    ensures m > 0 && Leads(f, Right(m)) ==> At(f, Right(m)) == At(f.rest, Right(m - 1))
  {
    if m > 0 {
      assert Right(m)[1..] == Right(m - 1) && !Right(m)[0];
    }
  }

  /** On the tags of a blob: `fdt_subnode_offset` finds nothing exactly when no child answers to the name, and else the
      first that does. */
  lemma SubnodeByName(cs: seq<Chunk>, st: seq<byte>, f: Forest, p: Path, i: nat, name: seq<byte>)
    requires Locates(cs, st, f, p, i)
    ensures var r, kids := FindSub(cs, i + 1, 0, name), At(f, p).kids;
            && (r == Missing <==> NoneAnswers(kids, name))
            && (r != Missing ==>
                  r.Place? && exists m: nat ::
                    && Leads(kids, Right(m)) && ChildAnswers(kids, m, name) && Locates(cs, st, f, p + Child(m), r.index)
                    && forall k: nat :: k < m ==> Leads(kids, Right(k)) && !ChildAnswers(kids, k, name))
  {
    hide FindSub, Locates, ChildAnswers;
    LocatesLeads(cs, st, f, p, i);
    SubnodeTree(cs, st, f, p, i, name);
    FirstChildExactly(At(f, p).kids, name);
  }

  lemma LocatesLeads(cs: seq<Chunk>, st: seq<byte>, f: Forest, p: Path, i: nat)
    requires Locates(cs, st, f, p, i)
    ensures i < |cs| && Leads(f, p)
  {
  }
}
