// The names every other module shares: agent identifiers and the small
// predicates on sequences of them.
module Agents {

  // Agent identifiers are primary keys of the agents table.  The empty string
  // is never a key; the server uses it for "no agent" (a node without parent).
  datatype AgentId = NoAgent | Agent(key: string)

  ghost predicate NoDups<T>(s: seq<T>) {
    forall i, j :: 0 <= i < j < |s| ==> s[i] != s[j]
  }

  ghost function Elems<T>(s: seq<T>): set<T> {
    set x | x in s
  }

  lemma ElemsSnoc<T>(s: seq<T>, x: T)
    ensures Elems<T>([]) == {} && Elems(s + [x]) == Elems(s) + {x}
  {}

  lemma NoDupsSnoc<T>(s: seq<T>, x: T)
    ensures NoDups<T>([])
    ensures NoDups(s) && x !in Elems(s) ==> NoDups(s + [x])
  {}

  ghost function Reversed<T>(s: seq<T>): seq<T> {
    seq(|s|, i requires 0 <= i < |s| => s[|s| - 1 - i])
  }
}
