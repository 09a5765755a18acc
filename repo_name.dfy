/** The repository name derived from a task id:
    `task.replace(/[^a-z0-9-]/gi, "-").toLowerCase()`.

    JavaScript strings are sequences of UTF-16 code units and the pattern is
    not in unicode mode, so a character outside the Basic Multilingual Plane
    is two code units and becomes two dashes. With the `i` flag and no `u`
    flag, only the ASCII letters fall in the class `a-z`. */
module RepoName {

  predicate IsAsciiLetter(c: char) {
    'a' <= c <= 'z' || 'A' <= c <= 'Z'
  }

  /** The characters a repository name is made of: `[a-z0-9-]`. */
  predicate IsRepoNameChar(c: char) {
    'a' <= c <= 'z' || '0' <= c <= '9' || c == '-'
  }

  function ToLowerAscii(c: char): (l: char)
    requires IsAsciiLetter(c)
    ensures 'a' <= l <= 'z'
  {
    if 'A' <= c <= 'Z' then (c as int + 32) as char else c
  }

  /** Number of UTF-16 code units of a character. */
  function Utf16Units(c: char): nat {
    if c as int >= 0x10000 then 2 else 1
  }

  /** `s.length` in JavaScript. */
  function Utf16Length(s: string): nat {
    if s == [] then 0 else Utf16Units(s[0]) + Utf16Length(s[1..])
  }

  /** What the replacement and the lower-casing make of one character. */
  function SanitiseChar(c: char): string {
    if IsAsciiLetter(c) then [ToLowerAscii(c)]
    else if '0' <= c <= '9' || c == '-' then [c]
    else if Utf16Units(c) == 2 then "--"
    else "-"
  }

  /** The repository name for a task id: only `[a-z0-9-]`, and exactly as many
      characters as the task id has UTF-16 code units. */
  function Sanitise(task: string): (name: string)
    ensures forall i :: 0 <= i < |name| ==> IsRepoNameChar(name[i])
    ensures |name| == Utf16Length(task)
  {
    if task == [] then "" else SanitiseChar(task[0]) + Sanitise(task[1..])
  }

  /** A name made only of `[a-z0-9-]` is left as it is. */
  lemma {:induction false} SanitiseKeepsRepoNames(s: string)
    requires forall i :: 0 <= i < |s| ==> IsRepoNameChar(s[i])
    ensures Sanitise(s) == s
  {
    if s != [] {
      SanitiseKeepsRepoNames(s[1..]);
      assert [s[0]] + s[1..] == s;
    }
  }

  /** Sanitising a repository name again changes nothing. */
  lemma SanitiseIdempotent(task: string)
    ensures Sanitise(Sanitise(task)) == Sanitise(task)
  {
    SanitiseKeepsRepoNames(Sanitise(task));
  }

  /** For a task id inside the Basic Multilingual Plane, the name has the same
      length, ASCII letters are lowered, digits and `-` are kept, and every
      other character is replaced by `-` (replaced, not removed). */
  lemma {:induction false} SanitiseCharwise(task: string)
    requires forall i :: 0 <= i < |task| ==> task[i] as int < 0x10000
    ensures |Sanitise(task)| == |task|
    ensures forall i :: 0 <= i < |task| ==>
      Sanitise(task)[i] == (if IsAsciiLetter(task[i]) then ToLowerAscii(task[i])
                            else if '0' <= task[i] <= '9' || task[i] == '-' then task[i]
                            else '-')
  {
    if task != [] {
      SanitiseCharwise(task[1..]);
      var rest := Sanitise(task[1..]);
      assert Sanitise(task) == SanitiseChar(task[0]) + rest;
      forall i | 1 <= i < |task|
        ensures Sanitise(task)[i] == rest[i - 1]
      {
      }
    }
  }

  /** A character outside the Basic Multilingual Plane is two code units and
      leaves two dashes. */
  lemma AstralCharBecomesTwoDashes(c: char)
    requires c as int >= 0x10000
    ensures Sanitise([c]) == "--"
  {
    assert [c][1..] == [];
  }
}
