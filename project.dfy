/** The working directory of one submission and the project tree assembled
    in it.

    The directory is a map from a path, relative to the submission's fresh
    temporary directory, to the bytes of the file there. Paths are kept as
    the text the handler builds: `path.join`'s normalisation of `.` and `..`,
    and the directories `mkdirSync` creates, are not modelled. */
module Project {
  import opened Wrappers
  import opened Encoding
  import opened Generator

  type Tree = map<string, seq<uint8>>

  /** `path.join(dir, name)` for a name without `.` or `..` segments. */
  function Join(dir: string, name: string): (p: string)
    ensures |p| == |dir| + 1 + |name| && p[..|dir| + 1] == dir + "/" && p[|dir| + 1..] == name
  {
    dir + "/" + name
  }

  /** `key` names a file somewhere below the directory `dir`. */
  predicate Below(key: string, dir: string) {
    |key| > |dir| + 1 && key[..|dir| + 1] == dir + "/"
  }

  /** `fs.existsSync(path)`: a file at `path`, or a directory there, which is
      to say some file below it. */
  predicate PathExists(t: Tree, path: string) {
    path in t || exists key :: key in t && Below(key, path)
  }

  /** One `writeFileSync(path, data)`. */
  datatype Write = Write(path: string, data: seq<uint8>)

  /** The tree after the writes, performed in order. */
  function ApplyWrites(t: Tree, writes: seq<Write>): Tree
  {
    if writes == [] then t
    else
      var last := writes[|writes| - 1];
      ApplyWrites(t, writes[..|writes| - 1])[last.path := last.data]
  }

  /** One more write after a sequence of writes. */
  lemma ApplyWritesSnoc(t: Tree, writes: seq<Write>, w: Write)
    ensures ApplyWrites(t, writes + [w]) == ApplyWrites(t, writes)[w.path := w.data]
  {
    assert (writes + [w])[..|writes|] == writes;
  }

  /** The data of the last write to `path`, if any: the reference for what a
      sequence of writes leaves at a path. */
  function LastWrite(writes: seq<Write>, path: string): (r: Option<seq<uint8>>)
    ensures r.None? <==> forall i :: 0 <= i < |writes| ==> writes[i].path != path
    ensures r.Some? ==> exists i :: 0 <= i < |writes| && writes[i] == Write(path, r.value)
  {
    if writes == [] then None
    else if writes[|writes| - 1].path == path then
      assert writes[|writes| - 1] == Write(path, writes[|writes| - 1].data);
      Some(writes[|writes| - 1].data)
    else
      var r := LastWrite(writes[..|writes| - 1], path);
      assert forall i :: 0 <= i < |writes| - 1 ==> writes[..|writes| - 1][i] == writes[i];
      r
  }

  /** Later writes win: each path written holds the data of its last write,
      and every other path keeps what it had. */
  lemma {:induction false} ApplyWritesLastWins(t: Tree, writes: seq<Write>, path: string)
    ensures LastWrite(writes, path).Some? ==>
      path in ApplyWrites(t, writes) && ApplyWrites(t, writes)[path] == LastWrite(writes, path).value
    ensures LastWrite(writes, path).None? ==>
      (path in ApplyWrites(t, writes) <==> path in t)
      && (path in t ==> ApplyWrites(t, writes)[path] == t[path])
  {
    if writes != [] {
      ApplyWritesLastWins(t, writes[..|writes| - 1], path);
    }
  }

  /** The paths of the tree after the writes are the old ones and the
      written ones. */
  lemma {:induction false} ApplyWritesKeys(t: Tree, writes: seq<Write>)
    ensures ApplyWrites(t, writes).Keys == t.Keys + set i | 0 <= i < |writes| :: writes[i].path
  {
    if writes != [] {
      var n := |writes| - 1;
      ApplyWritesKeys(t, writes[..n]);
      var before := set i | 0 <= i < n :: writes[..n][i].path;
      var after := set i | 0 <= i < |writes| :: writes[i].path;
      assert before == set i | 0 <= i < n :: writes[i].path;
      assert after == before + {writes[n].path};
    }
  }

  /** The writes of the generated files: `repoDir/<path>` gets the base64
      decoding of the content. */
  function GeneratedWrites(repoDir: string, files: seq<GeneratedFile>, decode: string -> seq<uint8>): (ws: seq<Write>)
    ensures |ws| == |files|
    ensures forall i :: 0 <= i < |files| ==> ws[i] == Write(Join(repoDir, files[i].path), decode(files[i].content))
  {
    if files == [] then []
    else
      var last := files[|files| - 1];
      GeneratedWrites(repoDir, files[..|files| - 1], decode) + [Write(Join(repoDir, last.path), decode(last.content))]
  }

  lemma GeneratedWritesSnoc(repoDir: string, files: seq<GeneratedFile>, f: GeneratedFile, decode: string -> seq<uint8>)
    ensures GeneratedWrites(repoDir, files + [f], decode)
      == GeneratedWrites(repoDir, files, decode) + [Write(Join(repoDir, f.path), decode(f.content))]
  {
    assert (files + [f])[..|files|] == files;
  }

  /** `if (!fs.existsSync(path)) fs.writeFileSync(path, data)`. */
  function AddDefault(t: Tree, path: string, data: seq<uint8>): (r: Tree)
    ensures PathExists(t, path) ==> r == t
    ensures !PathExists(t, path) ==> r == t[path := data]
  {
    if PathExists(t, path) then t else t[path := data]
  }

  /** Adding a default makes the path exist and never removes or changes
      what was there. */
  lemma AddDefaultKeeps(t: Tree, path: string, data: seq<uint8>)
    ensures PathExists(AddDefault(t, path, data), path)
    ensures forall key :: key in t ==> key in AddDefault(t, path, data) && AddDefault(t, path, data)[key] == t[key]
  {
    if PathExists(t, path) {
      assert AddDefault(t, path, data) == t;
    } else {
      assert path !in t;
    }
  }

  /** The tree once the generated files are written into `repoDir` and the
      two defaults are added where missing. */
  function Assembled(t: Tree, repoDir: string, files: seq<GeneratedFile>, decode: string -> seq<uint8>,
                     license: seq<uint8>, readme: seq<uint8>): Tree
  {
    var written := ApplyWrites(t, GeneratedWrites(repoDir, files, decode));
    var withLicense := AddDefault(written, Join(repoDir, "LICENSE"), license);
    AddDefault(withLicense, Join(repoDir, "README.md"), readme)
  }

  /** After assembly `LICENSE` and `README.md` both exist in `repoDir`; a
      generated file is never overwritten by a default, so each generated
      path holds the decoding of its last content; and a default is only
      written when nothing was at its path. */
  lemma AssembledContents(t: Tree, repoDir: string, files: seq<GeneratedFile>, decode: string -> seq<uint8>,
                          license: seq<uint8>, readme: seq<uint8>)
    ensures var r := Assembled(t, repoDir, files, decode, license, readme);
      PathExists(r, Join(repoDir, "LICENSE")) && PathExists(r, Join(repoDir, "README.md"))
    ensures var written := ApplyWrites(t, GeneratedWrites(repoDir, files, decode));
      var r := Assembled(t, repoDir, files, decode, license, readme);
      forall key :: key in written ==> key in r && r[key] == written[key]
    ensures var written := ApplyWrites(t, GeneratedWrites(repoDir, files, decode));
      var r := Assembled(t, repoDir, files, decode, license, readme);
      forall key :: key in r && key !in written ==>
        (key == Join(repoDir, "LICENSE") && r[key] == license) || (key == Join(repoDir, "README.md") && r[key] == readme)
  {
    var written := ApplyWrites(t, GeneratedWrites(repoDir, files, decode));
    var withLicense := AddDefault(written, Join(repoDir, "LICENSE"), license);
    AddDefaultKeeps(written, Join(repoDir, "LICENSE"), license);
    AddDefaultKeeps(withLicense, Join(repoDir, "README.md"), readme);
    assert PathExists(withLicense, Join(repoDir, "LICENSE"));
    var r := AddDefault(withLicense, Join(repoDir, "README.md"), readme);
    assert forall key :: key in withLicense ==> key in r && r[key] == withLicense[key];
    var lic := Join(repoDir, "LICENSE");
    var path := lic;
    if path in withLicense {
    } else {
      var key :| key in withLicense && Below(key, path);
      assert key in r && Below(key, path);
    }
  }

  /** The file written from the i-th generated file, when no later one has
      the same path, holds that file's decoded content. */
  lemma GeneratedFileLands(t: Tree, repoDir: string, files: seq<GeneratedFile>, decode: string -> seq<uint8>,
                           license: seq<uint8>, readme: seq<uint8>, i: nat)
    requires i < |files|
    requires forall j :: i < j < |files| ==> files[j].path != files[i].path
    ensures var r := Assembled(t, repoDir, files, decode, license, readme);
      Join(repoDir, files[i].path) in r && r[Join(repoDir, files[i].path)] == decode(files[i].content)
  {
    var ws := GeneratedWrites(repoDir, files, decode);
    var path := Join(repoDir, files[i].path);
    LastWriteIsLatest(ws, i);
    ApplyWritesLastWins(t, ws, path);
    AssembledContents(t, repoDir, files, decode, license, readme);
  }

  /** When no later write goes to the same path, the i-th write is the last
      one to its path. */
  lemma {:induction false} LastWriteIsLatest(writes: seq<Write>, i: nat)
    requires i < |writes|
    requires forall j :: i < j < |writes| ==> writes[j].path != writes[i].path
    ensures LastWrite(writes, writes[i].path) == Some(writes[i].data)
  {
    if i < |writes| - 1 {
      var front := writes[..|writes| - 1];
      assert front[i] == writes[i];
      LastWriteIsLatest(front, i);
    }
  }

  /** A set of writes performed twice leaves what it left the first time. */
  lemma ApplyWritesTwice(t: Tree, writes: seq<Write>)
    ensures ApplyWrites(ApplyWrites(t, writes), writes) == ApplyWrites(t, writes)
  {
    var once := ApplyWrites(t, writes);
    var twice := ApplyWrites(once, writes);
    ApplyWritesKeys(t, writes);
    ApplyWritesKeys(once, writes);
    forall path | path in twice
      ensures path in once && twice[path] == once[path]
    {
      ApplyWritesLastWins(t, writes, path);
      ApplyWritesLastWins(once, writes, path);
    }
  }

  /** Assembling into a tree that is already assembled changes nothing. */
  lemma AssembledIdempotent(t: Tree, repoDir: string, files: seq<GeneratedFile>, decode: string -> seq<uint8>,
                            license: seq<uint8>, readme: seq<uint8>)
    ensures var once := Assembled(t, repoDir, files, decode, license, readme);
      Assembled(once, repoDir, files, decode, license, readme) == once
  {
    var ws := GeneratedWrites(repoDir, files, decode);
    var once := Assembled(t, repoDir, files, decode, license, readme);
    var written := ApplyWrites(t, ws);
    AssembledContents(t, repoDir, files, decode, license, readme);
    // Writing again puts back what the generated files put there.
    var again := ApplyWrites(once, ws);
    ApplyWritesKeys(once, ws);
    ApplyWritesKeys(t, ws);
    forall path | path in again
      ensures path in once && again[path] == once[path]
    {
      ApplyWritesLastWins(t, ws, path);
      ApplyWritesLastWins(once, ws, path);
    }
    assert again == once;
    AddDefaultKeeps(written, Join(repoDir, "LICENSE"), license);
    AddDefaultKeeps(AddDefault(written, Join(repoDir, "LICENSE"), license), Join(repoDir, "README.md"), readme);
    AddDefaultKeeps(once, Join(repoDir, "LICENSE"), license);
  }

  /** The submission's temporary directory, written to in place. */
  class Workspace {
    var files: Tree

    /** `mkdirSync(tmp)` of a fresh, empty directory. */
    constructor()
      ensures files == map[]
    {
      files := map[];
    }

    /** `fs.existsSync(path)`. */
    predicate Exists(path: string)
      reads this
    {
      PathExists(files, path)
    }

    /** `fs.writeFileSync(path, data)`: creates or replaces the file. */
    method WriteFile(path: string, data: seq<uint8>)
      modifies this
      ensures files == old(files)[path := data]
    {
      files := files[path := data];
    }
  }
}
