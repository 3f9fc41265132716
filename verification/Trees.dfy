/** Directory trees and the file operations of the parity tool. */
module Trees {
  import opened Wrappers

  type Path = seq<string>

  datatype Node = File(content: seq<bv8>) | Dir(entries: map<string, Node>)

  const EmptyDir: Node := Dir(map[])

  /** What a path leads to: a node, nothing, or an attempt to descend into a file. */
  datatype Found = There(node: Node) | Missing | Blocked

  function Find(root: Node, path: Path): Found
    decreases |path|
  {
    if path == [] then There(root)
    else if root.File? then Blocked
    else if path[0] !in root.entries then Missing
    else Find(root.entries[path[0]], path[1..])
  }

  function Child(root: Node, name: string): Node
    requires root.Dir?
  {
    if name in root.entries then root.entries[name] else EmptyDir
  }

  /** Replaces whatever is at `path`, creating the directories above it; nothing when a file is in the way. */
  function Put(root: Node, path: Path, value: Node): Option<Node>
    decreases |path|
  {
    if path == [] then Some(value)
    else if root.File? then None
    else
      match Put(Child(root, path[0]), path[1..], value)
      case None => None
      case Some(child) => Some(Dir(root.entries[path[0] := child]))
  }

  function MkdirAll(root: Node, path: Path): Option<Node> {
    match Find(root, path)
    case There(Dir(_)) => Some(root)
    case There(File(_)) => None
    case Blocked => None
    case Missing => Put(root, path, EmptyDir)
  }

  predicate Apart(a: Path, b: Path) {
    !(a <= b) && !(b <= a)
  }

  lemma {:induction false} PutFails(root: Node, path: Path, value: Node)
    ensures Put(root, path, value) == None <==> Find(root, path) == Blocked
    decreases |path|
  {
    if path != [] && root.Dir? {
      PutFails(Child(root, path[0]), path[1..], value);
    }
  }

  /** A write is read back. */
  lemma {:induction false} PutThere(root: Node, path: Path, value: Node)
    requires Put(root, path, value).Some?
    ensures Find(Put(root, path, value).value, path) == There(value)
    decreases |path|
  {
    if path != [] {
      PutThere(Child(root, path[0]), path[1..], value);
    }
  }

  /** A write is not seen elsewhere. */
  lemma {:induction false} PutElsewhere(root: Node, path: Path, value: Node, other: Path)
    requires Put(root, path, value).Some? && Apart(path, other)
    ensures Find(Put(root, path, value).value, other) == Find(root, other)
    decreases |path|
  {
    if path[0] == other[0] {
      assert path == [path[0]] + path[1..] && other == [other[0]] + other[1..];
      PutElsewhere(Child(root, path[0]), path[1..], value, other[1..]);
      if path[0] !in root.entries && other[1..] != [] {
        assert Find(EmptyDir, other[1..]) == Missing;
      }
    }
  }

  /** Making a directory is seen only at the directory itself and above it. */
  lemma MkdirElsewhere(root: Node, path: Path, other: Path)
    requires MkdirAll(root, path).Some? && !(other <= path)
    ensures Find(MkdirAll(root, path).value, other) == Find(root, other)
  {
    if Find(root, path) == Missing {
      if path <= other {
        NothingBelow(root, path, other, Missing);
        PutThere(root, path, EmptyDir);
        NothingBelow(Put(root, path, EmptyDir).value, path, other, There(EmptyDir));
      } else {
        PutElsewhere(root, path, EmptyDir, other);
      }
    }
  }

  lemma {:induction false} NothingBelow(root: Node, path: Path, other: Path, found: Found)
    requires path < other && Find(root, path) == found && (found == Missing || found == There(EmptyDir))
    ensures Find(root, other) == Missing
    decreases |path|
  {
    if path != [] {
      assert path[0] == other[0];
      if path[0] in root.entries {
        NothingBelow(root.entries[path[0]], path[1..], other[1..], found);
      }
    }
  }

  lemma {:induction false} FindStep(root: Node, path: Path, name: string)
    ensures Find(root, path + [name]) ==
            match Find(root, path) {
              case There(Dir(entries)) => if name in entries then There(entries[name]) else Missing
              case There(File(_)) => Blocked
              case Missing => Missing
              case Blocked => Blocked
            }
    decreases |path|
  {
    if path == [] {
      assert path + [name] == [name];
    } else {
      assert (path + [name])[1..] == path[1..] + [name];
      if root.Dir? && path[0] in root.entries {
        FindStep(root.entries[path[0]], path[1..], name);
      }
    }
  }

  /** Afterwards the directory is there; it cannot be made exactly where a file is or is in the way, and one
      that is there already is left as it is. */
  lemma MkdirThere(root: Node, path: Path)
    ensures MkdirAll(root, path).None? <==> Find(root, path) == Blocked || (Find(root, path).There? && Find(root, path).node.File?)
    ensures MkdirAll(root, path).Some? ==>
      Find(MkdirAll(root, path).value, path) == if Find(root, path) == Missing then There(Dir(map[])) else Find(root, path)
    ensures Find(root, path).There? && Find(root, path).node.Dir? ==> MkdirAll(root, path) == Some(root)
  {
    PutFails(root, path, EmptyDir);
    if Find(root, path) == Missing {
      PutThere(root, path, EmptyDir);
    }
  }
}
