/** Strings as java.lang.String has them: searching, splitting, prefixes. */
module Strings {
  import opened Prelude

  predicate StartsWith(s: string, prefix: string) {
    |prefix| <= |s| && s[..|prefix|] == prefix
  }

  predicate EndsWith(s: string, suffix: string) {
    |suffix| <= |s| && s[|s| - |suffix|..] == suffix
  }

  predicate Occurs(s: string, pat: string, i: nat) {
    i + |pat| <= |s| && forall k | 0 <= k < |pat| :: s[i + k] == pat[k]
  }

  /** `indexOf`. */
  function Find(s: string, pat: string, from: nat): (r: Option<nat>)
    requires from <= |s|
    ensures r.Some? ==> from <= r.value && r.value + |pat| <= |s|
    decreases |s| - from
  {
    if Occurs(s, pat, from) then Some(from) else if from == |s| then None else Find(s, pat, from + 1)
  }

  /** The first occurrence, and the only way there is none. */
  lemma {:induction false} FindFirst(s: string, pat: string, from: nat)
    requires from <= |s|
    ensures match Find(s, pat, from)
            case None => forall j: nat | from <= j :: !Occurs(s, pat, j)
            case Some(i) => Occurs(s, pat, i) && forall j: nat | from <= j < i :: !Occurs(s, pat, j)
    decreases |s| - from
  {
    if !Occurs(s, pat, from) && from < |s| { FindFirst(s, pat, from + 1); }
  }

  lemma FindIs(s: string, pat: string, from: nat, i: nat)
    requires from <= i && Occurs(s, pat, i) && forall j: nat | from <= j < i :: !Occurs(s, pat, j)
    ensures Find(s, pat, from) == Some(i)
  {
    FindFirst(s, pat, from);
  }

  lemma FindNone(s: string, pat: string, from: nat)
    requires from <= |s| && forall j: nat | from <= j :: !Occurs(s, pat, j)
    ensures Find(s, pat, from) == None
  {
    FindFirst(s, pat, from);
  }

  /** `lastIndexOf`, at or before `from`. */
  function FindLast(s: string, pat: string, from: nat): (r: Option<nat>)
    ensures r.Some? ==>
      r.value <= from && Occurs(s, pat, r.value) && forall j: nat | r.value < j <= from :: !Occurs(s, pat, j)
    ensures r.None? ==> forall j: nat | j <= from :: !Occurs(s, pat, j)
  {
    if Occurs(s, pat, from) then Some(from) else if from == 0 then None else FindLast(s, pat, from - 1)
  }

  /** The parts of a split text, first part first. */
  datatype Parts = Last(part: string) | Part(part: string, rest: Parts)

  function Cut(s: string, sep: string): Parts
    requires sep != ""
    decreases |s|
  {
    match Find(s, sep, 0)
    case None => Last(s)
    case Some(i) => Part(s[..i], Cut(s[i + |sep|..], sep))
  }

  function Listed(parts: Parts): (list: seq<string>)
    ensures list != []
  {
    match parts case Last(part) => [part] case Part(part, rest) => [part] + Listed(rest)
  }

  function SplitAll(s: string, sep: string): seq<string>
    requires sep != ""
  {
    Listed(Cut(s, sep))
  }

  function DropEmptyTail(parts: seq<string>): seq<string> {
    if parts != [] && parts[|parts| - 1] == "" then DropEmptyTail(parts[..|parts| - 1]) else parts
  }

  /** `split(quote(sep))`: trailing empty parts are dropped, unless nothing was split. */
  function Split(s: string, sep: string): seq<string>
    requires sep != ""
  {
    if Find(s, sep, 0).None? then [s] else DropEmptyTail(SplitAll(s, sep))
  }

  /** What is in a buffer and what is to come, against the whole. */
  ghost predicate Along(written: string, rest: string, whole: string) {
    written + rest == whole
  }

  lemma AlongNext(written: string, next: string, rest: string, whole: string)
    requires Along(written, next + rest, whole)
    ensures Along(written + next, rest, whole)
  {
    Assoc(written, next, rest);
  }
}
