/**
 * Tree queries over the indexed paths and the growth of `processed_paths`:
 * `_has_children`, `_is_child_of_processed_path`, `_get_direct_children`,
 * `_get_ordered_children` and the three marking helpers.
 */
module Tree {
  import opened Wrappers
  import opened Strings
  import opened Collections
  import opened Schema
  import opened PathIndex

  /** `_has_children`: another key starts with `parent + "."`. */
  predicate HasChildren(keys: seq<string>, parent: string)
  {
    exists k :: k in keys && k != parent && StartsWith(k, parent + ".")
  }

  /** A path has children exactly when marking its tree marks something besides the path. */
  lemma HasChildrenMarksMore(keys: seq<string>, parent: string)
    ensures HasChildren(keys, parent) <==> MarkProcessed(keys, {}, parent) != {parent}
  {
    MarkProcessedSpec(keys, {}, parent);
    var m := MarkProcessed(keys, {}, parent);
    if m != {parent} {
      assert parent in m;
      var x :| x in m && x != parent;
    }
  }

  /** `".".join(parts[:i])` for some `1 <= i < len(parts)` is in `s`. */
  predicate SomeProperPrefixIn(parts: seq<string>, s: set<string>)
  {
    exists i :: 1 <= i < |parts| && Join(".", parts[..i]) in s
  }

  /** `_is_child_of_processed_path` */
  predicate IsChildOfProcessed(processed: set<string>, path: string)
  {
    SomeProperPrefixIn(Split(path, "."), processed)
  }

  /** A path is a child of a processed path exactly when it extends one by a dot and more. */
  lemma IsChildOfProcessedIff(processed: set<string>, path: string)
    ensures IsChildOfProcessed(processed, path) <==> exists q :: q in processed && StartsWith(path, q + ".")
  {
    var parts := Split(path, ".");
    if IsChildOfProcessed(processed, path) {
      var i :| 1 <= i < |parts| && Join(".", parts[..i]) in processed;
      var q := Join(".", parts[..i]);
      JoinSplit(path, ".");
      assert parts == parts[..i] + parts[i..];
      JoinAppend(".", parts[..i], parts[i..]);
      StartsWithAppend(q + ".", Join(".", parts[i..]));
    }
    if exists q :: q in processed && StartsWith(path, q + ".") {
      var q :| q in processed && StartsWith(path, q + ".");
      var rest := path[|q| + 1..];
      assert path == q + ['.'] + rest;
      SplitAppend(q, '.', rest);
      var m := |Split(q, ".")|;
      assert parts[..m] == Split(q, ".");
      JoinSplit(q, ".");
    }
  }

  // ------------------------------------------------------------------
  // _get_direct_children
  // ------------------------------------------------------------------

  /** `parent + "." if parent else ""` */
  function ChildPrefix(parent: string): string
  {
    if parent != "" then parent + "." else ""
  }

  /** `_add_direct_child_if_matched`: the three direct-child cases, applied to one key. */
  function AddDirectChild(vals: map<string, Descriptor>, parent: string, path: string, remaining: string, acc: seq<string>): seq<string>
  {
    if !Contains(remaining, ".") then acc + [path]
    else if Count(remaining, ".") >= 2 && Contains(remaining, Marker) then
      var arrayPath := parent + "." + Split(remaining, ".")[0];
      if arrayPath !in acc && arrayPath in vals then acc + [arrayPath] else acc
    else if Count(remaining, ".") == 1 then
      var childPath := parent + "." + SplitOnce(remaining, ".")[0];
      if childPath in vals && childPath !in acc then acc + [childPath] else acc
    else acc
  }

  /** One iteration of the loop of `_get_direct_children`. */
  function ChildStep(ix: Index, processed: set<string>, parent: string, acc: seq<string>, path: string): seq<string>
  {
    var prefix := ChildPrefix(parent);
    if path == parent || path in processed || !StartsWith(path, prefix) then acc
    else AddDirectChild(ix.pathData.vals, parent, path, path[|prefix|..], acc)
  }

  /** An indexed path strictly below `parent` (under `parent + "."` unless `parent` is empty). */
  ghost predicate Below(vals: map<string, Descriptor>, parent: string, c: string)
  {
    c in vals && |c| > |parent| && (parent != "" ==> StartsWith(c, parent + "."))
  }

  lemma AddDirectChildBelow(vals: map<string, Descriptor>, parent: string, path: string, remaining: string, acc: seq<string>)
    requires Below(vals, parent, path)
    ensures forall c :: c in AddDirectChild(vals, parent, path, remaining, acc) ==> c in acc || Below(vals, parent, c)
  {
    if !Contains(remaining, ".") {
    } else if Count(remaining, ".") >= 2 && Contains(remaining, Marker) {
      StartsWithAppend(parent + ".", Split(remaining, ".")[0]);
    } else if Count(remaining, ".") == 1 {
      StartsWithAppend(parent + ".", SplitOnce(remaining, ".")[0]);
    }
  }

  lemma ChildStepBelow(ix: Index, processed: set<string>, parent: string, acc: seq<string>, path: string)
    requires path in ix.pathData.vals
    ensures forall c :: c in ChildStep(ix, processed, parent, acc, path) ==> c in acc || Below(ix.pathData.vals, parent, c)
  {
    var prefix := ChildPrefix(parent);
    if !(path == parent || path in processed || !StartsWith(path, prefix)) {
      assert Below(ix.pathData.vals, parent, path);
      AddDirectChildBelow(ix.pathData.vals, parent, path, path[|prefix|..], acc);
    }
  }

  /** A remainder `name.element.field` with dot-free parts splits into those three parts. */
  lemma ElementRemainderParts(name: string, field: string)
    requires '.' !in name && '.' !in field
    ensures Split(name + Marker + field, ".") == [name, "element", field]
  {
    var xs := [name, "element", field];
    assert name + Marker + field == Join(".", xs) by {
      assert xs[1..] == ["element", field] && xs[1..][1..] == [field];
      assert Join(".", ["element", field]) == "element" + "." + field;
      assert Marker == "." + "element" + ".";
    }
    SplitJoin(xs, '.');
  }

  /** Such a remainder has exactly two dots. */
  lemma ElementRemainderCount(name: string, field: string)
    requires '.' !in name && '.' !in field
    ensures Count(name + Marker + field, ".") == 2
  {
    ElementRemainderParts(name, field);
    CountSplit(name + Marker + field, ".");
  }

  /** Such a remainder contains `.element.` right after its first part. */
  lemma ElementRemainderMarker(name: string, field: string)
    ensures Contains(name + Marker + field, Marker)
  {
    var rem := name + Marker + field;
    assert rem[|name|..|name| + |Marker|] == Marker;
    assert Occurs(rem, Marker, |name|);
  }

  /** Such a remainder contains a dot. */
  lemma ElementRemainderDot(name: string, field: string)
    requires '.' !in name
    ensures Contains(name + Marker + field, ".")
  {
    FindAfterFree(name, '.', "element." + field);
    assert name + Marker + field == name + ['.'] + ("element." + field);
  }

  /**
   * An array reached first through one of its element paths is listed by case 2,
   * and then listed again by case 1 when its own key comes up.
   */
  lemma ArrayListedTwice(vals: map<string, Descriptor>, parent: string, name: string, field: string)
    requires '.' !in name && '.' !in field && parent + "." + name in vals
    ensures var arr := parent + "." + name;
      AddDirectChild(vals, parent, arr, name, AddDirectChild(vals, parent, arr + Marker + field, name + Marker + field, [])) == [arr, arr]
  {
    ContainsChar(name, '.');
    ElementRemainderParts(name, field);
    ElementRemainderCount(name, field);
    ElementRemainderMarker(name, field);
    ElementRemainderDot(name, field);
  }

  /** The loop of `_get_direct_children` over the keys `ks`. */
  function DirectChildrenOf(ix: Index, processed: set<string>, parent: string, ks: seq<string>): (r: seq<string>)
    requires forall k :: k in ks ==> k in ix.pathData.vals
    ensures forall c :: c in r ==>
      c in ix.pathData.vals && |c| > |parent| && (parent != "" ==> StartsWith(c, parent + "."))
    decreases |ks|
  {
    if |ks| == 0 then []
    else
      var n := |ks| - 1;
      assert forall k :: k in ks[..n] ==> k in ks;
      var acc := DirectChildrenOf(ix, processed, parent, ks[..n]);
      ChildStepBelow(ix, processed, parent, acc, ks[n]);
      ChildStep(ix, processed, parent, acc, ks[n])
  }

  /** `_get_direct_children(parent)` */
  function DirectChildren(ix: Index, processed: set<string>, parent: string): (r: seq<string>)
    requires ix.pathData.Valid()
  {
    DirectChildrenOf(ix, processed, parent, ix.pathData.keys)
  }

  // ------------------------------------------------------------------
  // _get_ordered_children
  // ------------------------------------------------------------------

  /** `f"{parent}.{field}" if parent else field` */
  function ChildPath(parent: string, field: string): string
  {
    if parent != "" then parent + "." + field else field
  }

  lemma ChildPathInjective(parent: string, f: string, g: string)
    requires f != g
    ensures ChildPath(parent, f) != ChildPath(parent, g)
  {
    if parent != "" {
      assert (parent + "." + f)[|parent| + 1..] == f;
      assert (parent + "." + g)[|parent| + 1..] == g;
    }
  }

  /** The first loop of `_get_ordered_children`: `field_order[parent]` entries that are direct children. */
  function InFieldOrder(parent: string, fields: seq<string>, direct: seq<string>): (r: seq<string>)
    ensures forall c :: c in r ==> c in direct
    decreases |fields|
  {
    if |fields| == 0 then []
    else
      var n := |fields| - 1;
      var acc := InFieldOrder(parent, fields[..n], direct);
      var child := ChildPath(parent, fields[n]);
      if child in direct then acc + [child] else acc
  }

  /** The second loop: direct children not yet listed, appended in turn. */
  function AddMissing(acc: seq<string>, direct: seq<string>): (r: seq<string>)
    decreases |direct|
  {
    if |direct| == 0 then acc else AddMissing(AppendNew(acc, direct[0]), direct[1..])
  }

  /** The sort key `original_order.get(x, 999999)`. */
  function OrderKey(ix: Index): string -> int
  {
    x => OrderOf(ix, x)
  }

  /** Direct children before the sort: field-order ones first, the rest after. */
  function UnsortedChildren(ix: Index, processed: set<string>, parent: string): seq<string>
    requires ix.pathData.Valid()
  {
    var direct := DirectChildren(ix, processed, parent);
    AddMissing(InFieldOrder(parent, Get(ix.fieldOrder, parent), direct), direct)
  }

  /** `_get_ordered_children(parent)` */
  function OrderedChildren(ix: Index, processed: set<string>, parent: string): seq<string>
    requires ix.pathData.Valid()
  {
    SortBy(UnsortedChildren(ix, processed, parent), OrderKey(ix))
  }

  lemma {:induction false} InFieldOrderNoDup(parent: string, fields: seq<string>, direct: seq<string>)
    requires NoDup(fields)
    ensures NoDup(InFieldOrder(parent, fields, direct))
    ensures forall c :: c in InFieldOrder(parent, fields, direct) ==> exists f :: f in fields && c == ChildPath(parent, f)
    decreases |fields|
  {
    if |fields| > 0 {
      var n := |fields| - 1;
      assert NoDup(fields[..n]);
      InFieldOrderNoDup(parent, fields[..n], direct);
      var acc := InFieldOrder(parent, fields[..n], direct);
      var child := ChildPath(parent, fields[n]);
      assert forall f :: f in fields[..n] ==> f in fields;
      forall c | c in acc ensures c != child {
        var f :| f in fields[..n] && c == ChildPath(parent, f);
        assert fields[n] !in fields[..n];
        ChildPathInjective(parent, f, fields[n]);
      }
      if child in direct {
        var r := acc + [child];
        forall i, j | 0 <= i < j < |r| ensures r[i] != r[j] {
          if j == |acc| {
            assert r[i] == acc[i] && acc[i] in acc;
          }
        }
      }
    }
  }

  lemma {:induction false} AddMissingProps(acc: seq<string>, direct: seq<string>)
    requires NoDup(acc)
    ensures NoDup(AddMissing(acc, direct))
    ensures forall c :: c in AddMissing(acc, direct) <==> c in acc || c in direct
    decreases |direct|
  {
    if |direct| > 0 {
      AddMissingProps(AppendNew(acc, direct[0]), direct[1..]);
      assert direct == [direct[0]] + direct[1..];
    }
  }

  /**
   * `_get_ordered_children` lists each direct child exactly once, is a stable sort of
   * the list it builds by `original_order`, and every child is an indexed path longer
   * than its parent and under it.
   */
  lemma OrderedChildrenSpec(ix: Index, processed: set<string>, parent: string)
    requires WellFormed(ix)
    ensures NoDup(OrderedChildren(ix, processed, parent))
    ensures forall c :: c in OrderedChildren(ix, processed, parent) <==> c in DirectChildren(ix, processed, parent)
    ensures SortedBy(OrderedChildren(ix, processed, parent), OrderKey(ix))
    ensures multiset(OrderedChildren(ix, processed, parent)) == multiset(UnsortedChildren(ix, processed, parent))
    ensures forall k ::
      WithKey(OrderedChildren(ix, processed, parent), OrderKey(ix), k) == WithKey(UnsortedChildren(ix, processed, parent), OrderKey(ix), k)
    ensures forall c :: c in OrderedChildren(ix, processed, parent) ==>
      c in ix.pathData.keys && |c| > |parent| && (parent != "" ==> StartsWith(c, parent + "."))
  {
    var direct := DirectChildren(ix, processed, parent);
    var fields := Get(ix.fieldOrder, parent);
    assert NoDup(fields);
    InFieldOrderNoDup(parent, fields, direct);
    var first := InFieldOrder(parent, fields, direct);
    AddMissingProps(first, direct);
    var unsorted := UnsortedChildren(ix, processed, parent);
    SortByStable(unsorted, OrderKey(ix));
    var oc := OrderedChildren(ix, processed, parent);
    MultisetNoDup(unsorted, oc);
    forall c ensures c in oc <==> c in unsorted {
      assert c in oc <==> c in multiset(oc);
      assert c in unsorted <==> c in multiset(unsorted);
    }
  }

  /** Every ordered child is an indexed key longer than its parent. */
  lemma OrderedChildrenBelow(ix: Index, processed: set<string>, parent: string)
    requires WellFormed(ix)
    ensures forall c :: c in OrderedChildren(ix, processed, parent) ==> c in ix.pathData.keys && |c| > |parent|
  {
    OrderedChildrenSpec(ix, processed, parent);
  }

  // ------------------------------------------------------------------
  // processed_paths
  // ------------------------------------------------------------------

  /** The keys of `ks` under `parent`, added to `s` in turn (the loop of `_mark_processed`). */
  function MarkUnder(s: set<string>, parent: string, ks: seq<string>): (r: set<string>)
    ensures s <= r
    decreases |ks|
  {
    if |ks| == 0 then s
    else
      var n := |ks| - 1;
      var k := ks[n];
      MarkUnder(s, parent, ks[..n]) + (if k != parent && StartsWith(k, parent + ".") then {k} else {})
  }

  /** `_mark_processed(parent)`: the path itself and every key under it. */
  function MarkProcessed(keys: seq<string>, processed: set<string>, parent: string): set<string>
  {
    MarkUnder(processed + {parent}, parent, keys)
  }

  /** After `_mark_processed(p)`, `p` and exactly the keys starting with `p + "."` have been added. */
  lemma {:induction false} MarkProcessedSpec(keys: seq<string>, processed: set<string>, parent: string)
    ensures forall x :: x in MarkProcessed(keys, processed, parent) <==>
      x in processed || x == parent || (x in keys && x != parent && StartsWith(x, parent + "."))
  {
    MarkUnderSpec(processed + {parent}, parent, keys);
  }

  lemma {:induction false} MarkUnderSpec(s: set<string>, parent: string, ks: seq<string>)
    ensures forall x :: x in MarkUnder(s, parent, ks) <==> x in s || (x in ks && x != parent && StartsWith(x, parent + "."))
    decreases |ks|
  {
    if |ks| > 0 {
      var n := |ks| - 1;
      MarkUnderSpec(s, parent, ks[..n]);
      assert ks == ks[..n] + [ks[n]];
    }
  }

  /** `child.element.f` for each `f` of `fs`, added to `s` in turn. */
  function MarkElementFields(s: set<string>, child: string, fs: seq<string>): (r: set<string>)
    ensures s <= r
    decreases |fs|
  {
    if |fs| == 0 then s else MarkElementFields(s, child, fs[..|fs| - 1]) + {child + Marker + fs[|fs| - 1]}
  }

  /** The loop of `_mark_processed_tree` over the children. */
  function MarkChildren(ix: Index, s: set<string>, children: seq<string>): (r: set<string>)
    ensures s <= r
    decreases |children|
  {
    if |children| == 0 then s
    else
      var n := |children| - 1;
      var c := children[n];
      MarkElementFields(MarkChildren(ix, s, children[..n]) + {c}, c, Get(ix.elementFields, c))
  }

  /** `_mark_processed_tree(path, children)` */
  function MarkProcessedTree(ix: Index, processed: set<string>, path: string, children: seq<string>): set<string>
  {
    MarkChildren(ix, processed + {path}, children)
  }

  lemma {:induction false} MarkElementFieldsSpec(s: set<string>, child: string, fs: seq<string>)
    ensures forall x :: x in MarkElementFields(s, child, fs) <==> x in s || exists f :: f in fs && x == child + Marker + f
    decreases |fs|
  {
    if |fs| > 0 {
      var n := |fs| - 1;
      MarkElementFieldsSpec(s, child, fs[..n]);
      assert fs == fs[..n] + [fs[n]];
    }
  }

  /**
   * `_mark_processed_tree` adds the path, each child, and `c.element.f` for each
   * element field `f` recorded for a child `c`, and nothing else.
   */
  lemma {:induction false} MarkChildrenSpec(ix: Index, s: set<string>, children: seq<string>)
    ensures forall x :: x in MarkChildren(ix, s, children) <==>
      x in s || x in children ||
      exists c, f :: c in children && f in Get(ix.elementFields, c) && x == c + Marker + f
    decreases |children|
  {
    if |children| > 0 {
      var n := |children| - 1;
      var c := children[n];
      MarkChildrenSpec(ix, s, children[..n]);
      MarkElementFieldsSpec(MarkChildren(ix, s, children[..n]) + {c}, c, Get(ix.elementFields, c));
      assert children == children[..n] + [c];
    }
  }

  /** The element paths of one element table that are indexed, added to `s` in turn. */
  function MarkPresent(ix: Index, s: set<string>, table: Dict<string, string>, names: seq<string>): (r: set<string>)
    requires forall n :: n in names ==> n in table.vals
    ensures s <= r
    ensures forall x :: x in r ==> x in s || (x in ix.pathData.vals && exists n :: n in names && x == table.vals[n])
    decreases |names|
  {
    if |names| == 0 then s
    else
      var n := |names| - 1;
      var e := table.vals[names[n]];
      var r := MarkPresent(ix, s, table, names[..n]);
      assert forall m :: m in names[..n] ==> m in names;
      if e in ix.pathData.vals then r + {e} else r
  }

  /** The inner loop of `_mark_array_elements_processed` over the nested arrays. */
  function MarkNested(ix: Index, s: set<string>, nested: seq<string>): (r: set<string>)
    requires TablesOk(ix.arrayElementFields)
    ensures s <= r
    ensures forall x :: x in r ==> x in s || x in ix.pathData.vals
    decreases |nested|
  {
    if |nested| == 0 then s
    else
      var n := |nested| - 1;
      var r := MarkNested(ix, s, nested[..n]);
      var a := nested[n];
      if a in ix.arrayElementFields then
        var t := ix.arrayElementFields[a];
        MarkPresent(ix, r, t, t.keys)
      else r
  }

  /** `_mark_array_elements_processed(path)` */
  function MarkArrayElements(ix: Index, processed: set<string>, path: string): (r: set<string>)
    requires TablesOk(ix.arrayElementFields)
    ensures processed <= r
    ensures forall x :: x in r ==> x in processed || x in ix.pathData.vals
  {
    if path in ix.arrayElementFields then
      var t := ix.arrayElementFields[path];
      var s := MarkPresent(ix, processed, t, t.keys);
      if path in ix.nestedArrays then MarkNested(ix, s, ix.nestedArrays[path]) else s
    else processed
  }

  lemma {:induction false} MarkPresentCovers(ix: Index, s: set<string>, table: Dict<string, string>, names: seq<string>)
    requires forall n :: n in names ==> n in table.vals
    ensures forall n :: n in names && table.vals[n] in ix.pathData.vals ==> table.vals[n] in MarkPresent(ix, s, table, names)
    decreases |names|
  {
    if |names| > 0 {
      var n := |names| - 1;
      MarkPresentCovers(ix, s, table, names[..n]);
      assert names == names[..n] + [names[n]];
    }
  }

  /** The nested-array loop marks every indexed element path of every listed nested array. */
  lemma {:induction false} MarkNestedCovers(ix: Index, s: set<string>, nested: seq<string>)
    requires TablesOk(ix.arrayElementFields)
    ensures forall a, n ::
      (a in nested && a in ix.arrayElementFields && n in ix.arrayElementFields[a].vals &&
       ix.arrayElementFields[a].vals[n] in ix.pathData.vals) ==>
        ix.arrayElementFields[a].vals[n] in MarkNested(ix, s, nested)
    decreases |nested|
  {
    if |nested| > 0 {
      var k := |nested| - 1;
      var a := nested[k];
      MarkNestedCovers(ix, s, nested[..k]);
      if a in ix.arrayElementFields {
        var t := ix.arrayElementFields[a];
        MarkPresentCovers(ix, MarkNested(ix, s, nested[..k]), t, t.keys);
      }
      assert nested == nested[..k] + [a];
    }
  }

  /** The nested-array loop marks nothing but indexed element paths of the listed nested arrays. */
  lemma {:induction false} MarkNestedWithin(ix: Index, s: set<string>, nested: seq<string>)
    requires TablesOk(ix.arrayElementFields)
    ensures forall x :: x in MarkNested(ix, s, nested) ==>
      (x in s ||
       (x in ix.pathData.vals &&
        exists a, n ::
          a in nested && a in ix.arrayElementFields &&
          n in ix.arrayElementFields[a].vals && x == ix.arrayElementFields[a].vals[n]))
    decreases |nested|
  {
    if |nested| > 0 {
      var k := |nested| - 1;
      var a := nested[k];
      MarkNestedWithin(ix, s, nested[..k]);
      assert forall b :: b in nested[..k] ==> b in nested;
    }
  }

  /**
   * The element paths `_mark_array_elements_processed(path)` looks at: those of `path`'s
   * own element table and, when it has nested arrays, those of their tables.
   */
  ghost predicate ElementPathOf(ix: Index, path: string, x: string)
  {
    path in ix.arrayElementFields &&
    ((exists n :: n in ix.arrayElementFields[path].vals && x == ix.arrayElementFields[path].vals[n]) ||
     (path in ix.nestedArrays &&
      exists a, n :: a in ix.nestedArrays[path] && a in ix.arrayElementFields &&
        n in ix.arrayElementFields[a].vals && x == ix.arrayElementFields[a].vals[n]))
  }

  /** Every indexed element path of `path` and of its nested arrays is in `s`. */
  ghost predicate ElementPathsMarked(ix: Index, path: string, s: set<string>)
  {
    forall x :: ElementPathOf(ix, path, x) && x in ix.pathData.vals ==> x in s
  }

  /**
   * After `_mark_array_elements_processed(path)` every indexed element path of `path`,
   * and of each of its nested arrays, is processed.
   */
  lemma MarkArrayElementsCovers(ix: Index, processed: set<string>, path: string)
    requires TablesOk(ix.arrayElementFields)
    ensures ElementPathsMarked(ix, path, MarkArrayElements(ix, processed, path))
  {
    if path in ix.arrayElementFields {
      var t := ix.arrayElementFields[path];
      MarkPresentCovers(ix, processed, t, t.keys);
      var s1 := MarkPresent(ix, processed, t, t.keys);
      if path in ix.nestedArrays {
        MarkNestedCovers(ix, s1, ix.nestedArrays[path]);
      }
    }
  }

  /** `_mark_array_elements_processed(path)` marks nothing but those indexed element paths. */
  lemma MarkArrayElementsWithin(ix: Index, processed: set<string>, path: string)
    requires TablesOk(ix.arrayElementFields)
    ensures forall x :: x in MarkArrayElements(ix, processed, path) ==>
      (x in processed || (x in ix.pathData.vals && ElementPathOf(ix, path, x)))
  {
    if path in ix.arrayElementFields {
      var t := ix.arrayElementFields[path];
      var s1 := MarkPresent(ix, processed, t, t.keys);
      if path in ix.nestedArrays {
        MarkNestedWithin(ix, s1, ix.nestedArrays[path]);
      }
    }
  }
}
