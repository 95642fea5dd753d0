/** The disjoint-set forest over 0..n-1, with path compression. */
module DisjointSet {

  /** Element 'x' sits in the forest 'p' below its representative 'r[x]', and the
      height 'h' falls on the way there. */
  ghost predicate Placed(p: seq<nat>, r: seq<nat>, h: seq<nat>, x: nat)
    requires |p| == |r| == |h| && x < |p|
  {
    && p[x] < |p| && r[x] < |p|
    && r[p[x]] == r[x] && r[r[x]] == r[x]
    && (p[x] == x <==> r[x] == x)
    && (p[x] != x ==> h[p[x]] < h[x])
    && h[r[x]] <= h[x]
  }

  ghost predicate Forest(p: seq<nat>, r: seq<nat>, h: seq<nat>) {
    |p| == |r| == |h| && forall x :: 0 <= x < |p| ==> Placed(p, r, h, x)
  }

  lemma CompressKeepsForest(p: seq<nat>, r: seq<nat>, h: seq<nat>, a: nat)
    requires Forest(p, r, h) && a < |p| && p[a] != a
    ensures Forest(p[a := r[a]], r, h)
  {
    assert Placed(p, r, h, a) && Placed(p, r, h, p[a]) && Placed(p, r, h, r[a]);
    var p' := p[a := r[a]];
    forall x | 0 <= x < |p| ensures Placed(p', r, h, x) {
      assert Placed(p, r, h, x);
    }
  }

  function Merged(r: seq<nat>, a: nat, b: nat): seq<nat>
    requires a < |r| && b < |r|
  {
    seq(|r|, x requires 0 <= x < |r| => if r[x] == r[a] then r[b] else r[x])
  }

  ghost function Lifted(r: seq<nat>, h: seq<nat>, ra: nat, lift: nat): seq<nat>
    requires |r| == |h|
  {
    seq(|h|, x requires 0 <= x < |h| => if r[x] == ra then h[x] + lift else h[x])
  }

  lemma LinkKeepsForest(p: seq<nat>, r: seq<nat>, h: seq<nat>, a: nat, b: nat)
    requires Forest(p, r, h) && a < |p| && b < |p| && r[a] != r[b] && r[a] < |p| && r[b] < |p|
    ensures Forest(p[r[a] := r[b]], Merged(r, a, b), Lifted(r, h, r[a], h[r[b]] + 1))
  {
    var ra, rb := r[a], r[b];
    assert Placed(p, r, h, a) && Placed(p, r, h, b) && Placed(p, r, h, ra) && Placed(p, r, h, rb);
    var p', r', h' := p[ra := rb], Merged(r, a, b), Lifted(r, h, ra, h[rb] + 1);
    forall x | 0 <= x < |p| ensures Placed(p', r', h', x) {
      assert Placed(p, r, h, x);
    }
  }

  class IntSet {
    var parent: seq<nat>

    // The representative of each element, and the height of each element.
    ghost var root: seq<nat>
    ghost var height: seq<nat>

    ghost predicate Valid()
      reads this
    {
      Forest(parent, root, height)
    }

    constructor (size: nat)
      ensures Valid()
      ensures root == seq(size, x => x)
    {
      parent := seq(size, x => x);
      root := seq(size, x => x);
      height := seq(size, x => 0);
    }

    /** Finds the representative; compresses the path but moves no element to another set. */
    method FindRoot(a: nat) returns (r: nat)
      requires Valid() && a < |parent|
      modifies this`parent
      ensures Valid()
      ensures r == root[a] < |root|
      decreases height[a]
    {
      assert Placed(parent, root, height, a);
      if a == parent[a] { return a; }
      r := FindRoot(parent[a]);
      assert Placed(parent, root, height, a);
      CompressKeepsForest(parent, root, height, a);
      parent := parent[a := r];
    }

    /** Merges the sets of 'a' and 'b' and leaves every other set as it was. */
    method Union(a: nat, b: nat)
      requires Valid() && a < |root| && b < |root|
      modifies this
      ensures Valid()
      ensures root == Merged(old(root), a, b)
    {
      var ra := FindRoot(a);
      var rb := FindRoot(b);
      assert Placed(parent, root, height, a) && Placed(parent, root, height, ra);
      if ra != rb {
        LinkKeepsForest(parent, root, height, a, b);
        height := Lifted(root, height, ra, height[rb] + 1);
      } else {
        assert Merged(root, a, b) == root;
        assert parent[ra := rb] == parent;
      }
      parent := parent[ra := rb];
      root := Merged(root, a, b);
    }
  }
}
