/**
 * `PathHandler`: a processed-path set and a path table with the same marking and
 * lookup helpers `OrderPreservingGenerator` has, stated against the same functions.
 */
module PathHandlers {
  import opened Strings
  import opened Collections
  import opened Schema
  import Tree

  class PathHandler {
    var processedPaths: set<string>
    var pathData: Dict<string, Descriptor>

    /** `__init__`: nothing processed, no paths. */
    constructor ()
      ensures processedPaths == {} && pathData == EmptyDict()
    {
      processedPaths := {};
      pathData := EmptyDict();
    }

    predicate IsProcessed(path: string)
      reads this`processedPaths
    {
      path in processedPaths
    }

    method MarkProcessed(path: string)
      modifies this`processedPaths
      ensures processedPaths == old(processedPaths) + {path}
    {
      processedPaths := processedPaths + {path};
    }

    /** `is_child_of_processed_path`: the path extends some processed path by a dot. */
    predicate IsChildOfProcessedPath(path: string)
      reads this`processedPaths
      ensures IsChildOfProcessedPath(path) <==> exists q :: q in processedPaths && StartsWith(path, q + ".")
    {
      Tree.IsChildOfProcessedIff(processedPaths, path);
      Tree.IsChildOfProcessed(processedPaths, path)
    }

    /** `mark_tree_processed`: the parent and every key below it join the set; nothing else does. */
    method MarkTreeProcessed(parentPath: string)
      modifies this`processedPaths
      ensures processedPaths == Tree.MarkProcessed(pathData.keys, old(processedPaths), parentPath)
      ensures forall x :: x in processedPaths <==>
        (x in old(processedPaths) || x == parentPath || (x in pathData.keys && x != parentPath && StartsWith(x, parentPath + ".")))
    {
      processedPaths := processedPaths + {parentPath};
      var prefix := parentPath + ".";
      var keys := pathData.keys;
      ghost var start := processedPaths;
      for k := 0 to |keys|
        invariant processedPaths == Tree.MarkUnder(start, parentPath, keys[..k])
      {
        var path := keys[k];
        assert keys[..k + 1][..k] == keys[..k];
        if path != parentPath && StartsWith(path, prefix) {
          processedPaths := processedPaths + {path};
        }
      }
      assert keys[..|keys|] == keys;
      Tree.MarkProcessedSpec(keys, old(processedPaths), parentPath);
    }

    /** `has_children`: exactly when marking the tree would mark more than the parent. */
    predicate HasChildren(parentPath: string)
      reads this`pathData
      ensures HasChildren(parentPath) <==> Tree.MarkProcessed(pathData.keys, {}, parentPath) != {parentPath}
    {
      Tree.MarkProcessedSpec(pathData.keys, {}, parentPath);
      var marked := Tree.MarkProcessed(pathData.keys, {}, parentPath);
      assert Tree.HasChildren(pathData.keys, parentPath) ==> exists k :: k in marked && k != parentPath;
      Tree.HasChildren(pathData.keys, parentPath)
    }
  }

  /** After the tree of `parent` is marked, every path below it counts as a child of a processed path. */
  lemma MarkedTreeCoversDescendants(keys: seq<string>, processed: set<string>, parent: string, path: string)
    requires StartsWith(path, parent + ".")
    ensures Tree.IsChildOfProcessed(Tree.MarkProcessed(keys, processed, parent), path)
  {
    var marked := Tree.MarkProcessed(keys, processed, parent);
    Tree.MarkProcessedSpec(keys, processed, parent);
    Tree.IsChildOfProcessedIff(marked, path);
  }
}
