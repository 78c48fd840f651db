/** The in-memory tree storage: mutable nodes that know their parent and map words to children. */
module RamCache {
  import opened Text
  import opened MapOrder
  import opened FlatStore
  import opened NodeTree
  import opened DumpText

  /** What reading the dump file yields. */
  datatype DumpFile = Missing | Unreadable | Text(text: string)

  class RamCacheDB {
    var root: RamNode
    var pendingChanges: bool

    /** Which node every existing path leads to; the root is at the empty path. */
    ghost var at: map<Path, RamNode>

    /** Every node ever hung in the tree; the heap the operations may write to. */
    ghost var nodes: set<RamNode>

    ghost function Snapshot(): Heap
      reads `nodes, nodes
    {
      map n | n in nodes :: Fields(n.childs, n.parent, n.imediateName, n.value)
    }

    ghost predicate Valid()
      reads `at, `root, `nodes, nodes
    {
      Tree(at, Snapshot()) && [] in at && at[[]] == root && root in nodes
    }

    /** The flat store this tree stands for. */
    ghost function Contents(): Store
      requires Valid()
      reads `at, `root, `nodes, nodes
    {
      Values(at, Snapshot())
    }

    lemma ContentsClosed()
      requires Valid()
      ensures Closed(Contents())
      ensures forall p :: p in Contents() <==> p in at && p != []
    {
      TreeClosed(at, Snapshot());
    }

    constructor Empty()
      ensures Valid() && fresh(nodes) && Contents() == EMPTY
      ensures !pendingChanges
    {
      root := new RamNode("", null, []);
      pendingChanges := false;
      new;
      hide Tree, Values;
      at := map[[] := root];
      nodes := {root};
      EmptyTree(root);
      assert Snapshot() == map[root := Fields(map[], null, "", "")];
    }

    /** Hangs a new, empty node below `curr`. */
    method AddChild(curr: RamNode, word: string, ghost cp: Path) returns (child: RamNode)
      requires Valid() && cp in at && at[cp] == curr && curr in nodes
      requires word !in curr.childs && '.' !in word
      modifies `at, `nodes, curr`childs
      ensures Valid() && Contents() == old(Contents())[cp + [word] := ""]
      ensures at == old(at)[cp + [word] := child]
      ensures fresh(child) && nodes == old(nodes) + {child}
    {
      hide Tree, Values;
      child := new RamNode(word, curr, cp + [word]);
      ghost var h := Snapshot();
      WordOfChild(at, h, cp, word);
      TreeAfterAdd(at, h, cp, word, child);
      ValuesAfterAdd(at, h, cp, word, child);
      curr.childs := curr.childs[word := child];
      at := at[cp + [word] := child];
      nodes := nodes + {child};
      assert Snapshot() == Hung(h, curr, word, child);
      assert cp + [word] != [];
    }

    /** The read-only walk: follows the words of `name` down from `curr`. */
    method FindNode(name: string, curr: RamNode, ghost cp: Path) returns (r: RamNode?)
      requires Valid() && cp in at && at[cp] == curr
      ensures r == if cp + NodePath(name) in at then at[cp + NodePath(name)] else null
      decreases |name|
    {
      var i := IndexOf(name, '.');
      hide NodePath, IndexOf, Tree, Values;
      var currName := if i >= 0 then name[..i] else name;
      var remainingName := if i >= 0 then name[i + 1..] else "";
      ghost var np, whole := cp + [currName], cp + NodePath(name);
      assert whole == if remainingName == "" then np else np + NodePath(remainingName) by {
        NodePathStep(name);
      }
      WordOfChild(at, Snapshot(), cp, currName);
      if currName !in curr.childs {
        PrefixOnTree(at, Snapshot(), np, whole);
        return null;
      }
      if remainingName == "" {
        return curr.childs[currName];
      }
      r := FindNode(remainingName, curr.childs[currName], np);
    }

    /** One step of the creating walk: the child for the next word, hung in if it is missing. */
    method StepTo(curr: RamNode, word: string, ghost cp: Path) returns (child: RamNode)
      requires Valid() && cp in at && at[cp] == curr && '.' !in word
      modifies `at, `nodes, nodes
      ensures Valid() && cp + [word] in at && child == at[cp + [word]]
      ensures Contents() == Touch(old(Contents()), cp + [word])
      ensures fresh(nodes - old(nodes)) && nodes >= old(nodes)
    {
      hide NodePath, Tree, Values, Touch;
      ghost var d := Contents();
      ContentsClosed();
      WordOfChild(at, Snapshot(), cp, word);
      if word !in curr.childs {
        TouchStep(d, cp, word);
        child := AddChild(curr, word, cp);
      } else {
        TouchPresent(d, cp + [word]);
        child := curr.childs[word];
      }
    }

    /** The creating walk: the same, hanging in every node that is missing. */
    method MakeNode(name: string, curr: RamNode, ghost cp: Path) returns (r: RamNode)
      requires Valid() && cp in at && at[cp] == curr
      modifies `at, `nodes, nodes
      ensures Valid() && cp + NodePath(name) in at && r == at[cp + NodePath(name)]
      ensures Contents() == Touch(old(Contents()), cp + NodePath(name))
      ensures fresh(nodes - old(nodes)) && nodes >= old(nodes)
      decreases |name|
    {
      var i := IndexOf(name, '.');
      hide *;
      var currName := if i >= 0 then name[..i] else name;
      var remainingName := if i >= 0 then name[i + 1..] else "";
      ghost var np, whole := cp + [currName], cp + NodePath(name);
      assert whole == if remainingName == "" then np else np + NodePath(remainingName) by {
        NodePathStep(name);
      }
      ghost var d := Contents();
      r := StepTo(curr, currName, cp);
      if remainingName != "" {
        TouchTwice(d, np, whole);
        r := MakeNode(remainingName, r, np);
      }
    }

    /** Gives one node a new value. */
    method Assign(item: RamNode, v: string, ghost p: Path)
      requires Valid() && p in at && p != [] && at[p] == item && item in nodes
      modifies item`value
      ensures Valid() && Contents() == old(Contents())[p := v]
    {
      hide Tree, Values;
      ghost var h := Snapshot();
      TreeAfterAssign(at, h, p, v);
      ValuesAfterAssign(at, h, p, v);
      item.value := v;
      assert Snapshot() == Assigned(h, item, v);
    }

    method Set(name: string, v: string)
      requires Valid()
      modifies this, nodes
      ensures Valid() && fresh(nodes - old(nodes))
      ensures Contents() == Put(old(Contents()), NodePath(name), v)
      ensures pendingChanges && root == old(root)
    {
      hide NodePath, Touch, Tree, Values;
      assert [] + NodePath(name) == NodePath(name);
      var item := MakeNode(name, root, []);
      NodeAt(at, Snapshot(), NodePath(name));
      Assign(item, v, NodePath(name));
      pendingChanges := true;
    }

    method Get(name: string, defaultValue: string) returns (v: string)
      requires Valid()
      ensures v == Lookup(Contents(), NodePath(name), defaultValue)
      ensures NodePath(name) in Contents() ==> v == Contents()[NodePath(name)]
      ensures NodePath(name) !in Contents() ==> v == defaultValue
    {
      hide NodePath;
      assert [] + NodePath(name) == NodePath(name);
      var item := FindNode(name, root, []);
      if item != null {
        NodeAt(at, Snapshot(), NodePath(name));
        return item.value;
      }
      return defaultValue;
    }

    method HasValue(name: string) returns (has: bool)
      requires Valid()
      ensures has <==> NodePath(name) in Contents()
    {
      hide NodePath;
      assert [] + NodePath(name) == NodePath(name);
      var item := FindNode(name, root, []);
      return item != null;
    }

    /** The empty name lists the children of the root, a missing node none. */
    method GetChilds(parentName: string) returns (words: seq<string>)
      requires Valid()
      ensures var p := if parentName == "" then [] else NodePath(parentName);
              forall w :: w in words <==> w in ChildWords(Contents(), p)
      ensures forall i, j | 0 <= i < j < |words| :: words[i] != words[j]
    {
      if parentName == "" {
        words := KeysInSomeOrder(root.childs);
        ChildsOf([]);
        return;
      }
      ghost var p := NodePath(parentName);
      assert [] + p == p;
      var item := FindNode(parentName, root, []);
      if item == null {
        ContentsClosed();
        NoChilds(Contents(), p);
        return [];
      }
      words := KeysInSomeOrder(item.childs);
      ChildsOf(p);
    }

    lemma ChildsOf(p: Path)
      requires Valid() && p in at
      ensures at[p].childs.Keys == ChildWords(Contents(), p)
    {
      forall w ensures w in at[p].childs <==> w in ChildWords(Contents(), p) {
        WordOfChild(at, Snapshot(), p, w);
        ChildWordsIn(Contents(), p, w);
      }
    }

    lemma ChildOf(p: Path, w: string)
      requires Valid() && p in at && w in at[p].childs
      ensures p + [w] in at && at[p + [w]] == at[p].childs[w]
      ensures p + [w] in Contents() && Contents()[p + [w]] == at[p].childs[w].value
    {
      hide Tree;
      WordOfChild(at, Snapshot(), p, w);
      NodeAt(at, Snapshot(), p);
      NodeAt(at, Snapshot(), p + [w]);
    }

    /** Clears the value; drops the children when cascading; unlinks the node once it has none. */
    method DeleteValue(name: string, deleteChildsInACascade: bool)
      requires Valid()
      modifies this, nodes
      ensures Valid() && nodes == old(nodes) && root == old(root)
      ensures Contents() == Remove(old(Contents()), NodePath(name), deleteChildsInACascade)
      ensures pendingChanges == (old(pendingChanges) || NodePath(name) in old(Contents()))
    {
      hide NodePath, Tree, Values, Pruned, Childless;
      ghost var p := NodePath(name);
      assert [] + p == p;
      ContentsClosed();
      var item := FindNode(name, root, []);
      if item == null {
        return;
      }
      NodeAt(at, Snapshot(), p);
      DeleteNode(item, deleteChildsInACascade, p);
      pendingChanges := true;
    }

    method DeleteNode(item: RamNode, cascade: bool, ghost p: Path)
      requires Valid() && p in at && p != [] && at[p] == item && item in nodes
      modifies `at, nodes
      ensures Valid()
      ensures Contents() == Remove(old(Contents()), p, cascade)
    {
      hide Tree, Values, Pruned, Childless;
      ghost var d := Contents();
      ContentsClosed();
      ChildsOf(p);
      ChildlessByWords(d, p);
      assert Childless(d, p) <==> |item.childs| == 0;
      Assign(item, "", p);
      ghost var h := Snapshot();
      ParentOf(at, h, p);
      PrunedIgnores(d, p, "");
      if cascade {
        item.childs := map[];
      }
      if |item.childs| == 0 && item.parent != null {
        Unlink(item, p, h);
      }
    }

    /** Cuts a node off its parent, and with it everything that was below. */
    method Unlink(item: RamNode, ghost p: Path, ghost h: Heap)
      requires Tree(at, h) && h.Keys == nodes && root in nodes && [] in at && at[[]] == root
      requires p in at && p != [] && at[p] == item && item in nodes
      requires forall n | n in nodes && n != item :: Snapshot()[n] == h[n]
      requires item.parent == h[item].parent && item.imediateName == h[item].name
      modifies `at, nodes
      ensures Valid() && Contents() == Pruned(Values(old(at), h), p)
    {
      assert [] in Pruned(at, p) && Pruned(at, p)[[]] == root;
      hide Tree, Values, Pruned;
      ParentOf(at, h, p);
      ghost var f, up := Fields(item.childs, item.parent, item.imediateName, item.value), at[Up(p)];
      TreeAfterCut(at, h, p, f);
      ValuesAfterCut(at, h, p, f);
      item.parent.childs := item.parent.childs - {item.imediateName};
      at := Pruned(at, p);
      IsCut(h, Snapshot(), item, f, up, Last(p));
    }

    /** Writes the valued nodes below `current`, children in whatever order the map yields them. */
    method DumpToString(current: RamNode, currentParentName: string, ghost cp: Path)
      returns (ret: string, ghost order: seq<Path>)
      requires Valid() && cp in at && at[cp] == current && currentParentName == KeyText(cp)
      ensures ret == DumpLines(Contents(), order) && Visits(Contents(), cp, order)
      ensures IsDump(ret, Contents(), cp)
      decreases Subtree(at, cp)
    {
      hide Subtree, DumpLines, Visits, Visited, KeyText, RamCacheDB.Valid, RamCacheDB.Contents;
      ghost var d := Contents();
      ContentsClosed();
      ret, order := "", [];
      var prefix := if currentParentName != "" then currentParentName + "." else "";
      var ks := KeysInSomeOrder(current.childs);
      StartVisit(d, cp, ks);
      for i := 0 to |ks|
        invariant ret == DumpLines(d, order) && Visited(d, cp, ks[..i], order)
      {
        var k := ks[i];
        var c := current.childs[k];
        ghost var p := cp + [k];
        KeyTextStep(cp, k);
        ChildOf(cp, k);
        ghost var here: seq<Path> := if c.value != "" then [p] else [];
        if c.value != "" {
          ret := ret + (prefix + k + "=" + c.value + "\n");
        }
        SubtreeShrinks(at, cp, k);
        var sub;
        ghost var below;
        sub, below := DumpToString(c, prefix + k, p);
        ret := ret + sub;
        DumpStep(d, order, here, below, p);
        VisitStep(d, cp, ks[..i], order, k, below);
        assert ks[..i + 1] == ks[..i] + [k];
        order := order + here + below;
      }
      assert ks[..|ks|] == ks;
      ChildsOf(cp);
      EndVisit(d, cp, ks, order);
    }

    /** Reads the lines of a dump into the tree; what is already there stays unless a line sets it. */
    method Load(file: DumpFile) returns (ok: bool)
      requires Valid()
      modifies this, nodes
      ensures Valid() && fresh(nodes - old(nodes)) && root == old(root)
      ensures ok <==> !file.Unreadable?
      ensures !file.Text? ==> Contents() == old(Contents())
      ensures file.Text? ==> Contents() == LoadText(old(Contents()), file.text)
      ensures file.Text? ==> TakesLines(old(Contents()), Split(file.text, '\n'), Contents())
      ensures pendingChanges == (old(pendingChanges) && !file.Text?)
    {
      hide LoadLines, TakesLines, Split, Tree, Values;
      if !file.Text? {
        return file.Missing?;
      }
      var lines := Split(file.text, '\n');
      LoadTakesLines(Contents(), lines);
      LoadAll(lines);
      pendingChanges := false;
      return true;
    }

    method LoadAll(lines: seq<string>)
      requires Valid()
      modifies `at, `nodes, nodes
      ensures Valid() && fresh(nodes - old(nodes))
      ensures Contents() == LoadLines(old(Contents()), lines)
    {
      hide Tree, Values, LoadLine;
      ghost var d := Contents();
      for i := 0 to |lines|
        invariant Valid() && fresh(nodes - old(nodes)) && Contents() == LoadLines(d, lines[..i])
      {
        assert lines[..i + 1][..i] == lines[..i];
        LoadOne(lines[i]);
      }
      assert lines[..|lines|] == lines;
    }

    method LoadOne(line: string)
      requires Valid()
      modifies `at, `nodes, nodes
      ensures Valid() && fresh(nodes - old(nodes))
      ensures Contents() == LoadLine(old(Contents()), line)
    {
      hide NodePath, Tree, Values, Touch;
      if Blank(line) {
        return;
      }
      var idx := IndexOf(line, '=');
      if idx < 0 {
        return;
      }
      var key := line[..idx];
      var val := line[idx + 1..];
      assert [] + NodePath(key) == NodePath(key);
      var item := MakeNode(key, root, []);
      NodeAt(at, Snapshot(), NodePath(key));
      Assign(item, val, NodePath(key));
    }

    /** Start-up reads the same file twice. */
    method LoadAtStart(file: DumpFile)
      requires Valid() && Contents() == EMPTY
      modifies this, nodes
      ensures Valid() && fresh(nodes - old(nodes))
      ensures !file.Text? ==> Contents() == EMPTY
      ensures file.Text? ==> Contents() == LoadText(EMPTY, file.text)
      ensures file.Text? ==> TakesLines(EMPTY, Split(file.text, '\n'), Contents())
      ensures pendingChanges == (old(pendingChanges) && !file.Text?)
    {
      hide Tree, Values, LoadText, TakesLines, Split;
      var _ := Load(file);
      var _ := Load(file);
      if file.Text? {
        LoadTwice(file.text);
        TextTakesLines(EMPTY, file.text);
      }
    }

    /** A store at start-up, over whatever the last run left on disk. */
    constructor FromDisk(file: DumpFile)
      ensures Valid() && fresh(nodes)
      ensures !file.Text? ==> Contents() == EMPTY
      ensures file.Text? ==> Contents() == LoadText(EMPTY, file.text)
      ensures file.Text? ==> TakesLines(EMPTY, Split(file.text, '\n'), Contents())
      ensures !pendingChanges
    {
      root := new RamNode("", null, []);
      pendingChanges := false;
      new;
      hide Tree, Values, LoadText, TakesLines, Split;
      at := map[[] := root];
      nodes := {root};
      EmptyTree(root);
      assert Snapshot() == map[root := Fields(map[], null, "", "")];
      LoadAtStart(file);
    }
  }

  // ---- the order in which a dump visits the paths ----

  /** The valued paths whose word after `cp` is one of `ks`, each once. */
  ghost predicate Visited(d: Store, cp: Path, ks: seq<string>, order: seq<Path>) {
    && (forall p :: p in order <==> p in d && cp < p && p[|cp|] in ks && d[p] != "")
    && (forall i, j | 0 <= i < j < |order| :: order[i] != order[j])
  }

  lemma StartVisit(d: Store, cp: Path, ks: seq<string>)
    ensures Visited(d, cp, ks[..0], []) && DumpLines(d, []) == ""
  {
  }

  lemma EndVisit(d: Store, cp: Path, ks: seq<string>, order: seq<Path>)
    requires Closed(d) && Visited(d, cp, ks, order)
    requires forall w :: w in ks <==> w in ChildWords(d, cp)
    ensures Visits(d, cp, order)
  {
    forall p | p in d && cp < p ensures p[|cp|] in ks {
      PrefixIn(d, p, p[..|cp| + 1]);
      assert p[..|cp| + 1] == cp + [p[|cp|]];
      ChildWordsIn(d, cp, p[|cp|]);
    }
  }

  lemma VisitStep(d: Store, cp: Path, ks: seq<string>, order: seq<Path>, k: string, below: seq<Path>)
    requires Visited(d, cp, ks, order) && k !in ks && cp + [k] in d
    requires Visits(d, cp + [k], below)
    ensures Visited(d, cp, ks + [k], order + (if d[cp + [k]] != "" then [cp + [k]] else []) + below)
  {
    var p := cp + [k];
    var here: seq<Path> := if d[p] != "" then [p] else [];
    var order' := order + here + below;
    forall q ensures q in order' <==> q in d && cp < q && q[|cp|] in ks + [k] && d[q] != "" {
      if cp < q && q[|cp|] == k {
        assert q[..|p|] == p;
        assert q == p || p < q;
      }
      if p <= q {
        assert q[..|p|] == p && p[|cp|] == k;
        assert cp <= p <= q;
      }
      assert q in order' <==> q in order || q in here || q in below;
    }
    forall q | q in order ensures q != p && q !in below {
      assert q[|cp|] != k;
    }
    assert p !in below;
    DistinctConcat(order, here);
    DistinctConcat(order + here, below);
  }

  lemma DistinctConcat<T>(a: seq<T>, b: seq<T>)
    requires forall i, j | 0 <= i < j < |a| :: a[i] != a[j]
    requires forall i, j | 0 <= i < j < |b| :: b[i] != b[j]
    requires forall x | x in a :: x !in b
    ensures forall i, j | 0 <= i < j < |a + b| :: (a + b)[i] != (a + b)[j]
  {
    forall i, j | 0 <= i < j < |a + b| ensures (a + b)[i] != (a + b)[j] {
      if i < |a| <= j {
        assert a[i] in a && b[j - |a|] in b;
      }
    }
  }

  lemma IsCut(h: Heap, h': Heap, item: RamNode, f: Fields, up: RamNode, w: string)
    requires h'.Keys == h.Keys && item in h && up in h && item != up
    requires h'[item] == f && h'[up] == h[up].(childs := h[up].childs - {w})
    requires forall n | n in h && n != item && n != up :: h'[n] == h[n]
    ensures h' == Cut(h[item := f], up, w)
  {
  }

  lemma DumpStep(d: Store, order: seq<Path>, here: seq<Path>, below: seq<Path>, p: Path)
    requires p in d && here == if d[p] != "" then [p] else []
    ensures DumpLines(d, order + here + below)
         == (if d[p] != "" then DumpLines(d, order) + (KeyText(p) + "=" + d[p] + "\n") else DumpLines(d, order))
            + DumpLines(d, below)
  {
    hide KeyText, DumpLines;
    DumpLinesConcat(d, order + here, below);
    if d[p] != "" {
      DumpLinesConcat(d, order, [p]);
      DumpOne(d, p);
    } else {
      assert order + here == order;
    }
  }

  lemma DumpOne(d: Store, p: Path)
    requires p in d
    ensures DumpLines(d, [p]) == KeyText(p) + "=" + d[p] + "\n"
  {
    hide KeyText;
    assert DumpLines(d, [p]) == EntryLine(d, p) + "\n" + DumpLines(d, [p][1..]);
  }
}
