/** Facet strings: how a value, its lower case and its authority are written
    into one index field, and what the three decoders make of it. */
module FacetCodec {
  import opened Prelude
  import opened Strings

  const AUTHORITY_SEPARATOR := "###"
  const FILTER_SEPARATOR := "\n|||\n"

  /** `split("###", 2)`: what stands before the first authority separator, and after it. */
  function BeforeAuthority(s: string): string {
    match Find(s, AUTHORITY_SEPARATOR, 0) case None => s case Some(i) => s[..i]
  }

  function AfterAuthority(s: string): string {
    match Find(s, AUTHORITY_SEPARATOR, 0) case None => "" case Some(i) => s[i + 3..]
  }

  // ---------- the decoders

  function Befores(parts: seq<string>, from: nat): string
    requires from <= |parts|
    decreases |parts| - from
  {
    if from == |parts| then "" else BeforeAuthority(parts[from]) + Befores(parts, from + 1)
  }

  function Afters(parts: seq<string>, from: nat): string
    requires from <= |parts|
    decreases |parts| - from
  {
    if from == |parts| then "" else AfterAuthority(parts[from]) + Afters(parts, from + 1)
  }

  /** The first `count` parts, one after the other. */
  function Concat(parts: seq<string>, count: nat): string
    requires count <= |parts|
  {
    if count == 0 then "" else Concat(parts, count - 1) + parts[count - 1]
  }

  function Displayed(value: string, sep: string): string
    requires sep != ""
  {
    var parts := Split(value, sep);
    Befores(parts, |parts| / 2)
  }

  function Authority(value: string, sep: string): Option<string>
    requires sep != ""
  {
    var parts := Split(value, sep);
    var found := Afters(parts, |parts| / 2);
    if found == "" then None else Some(found)
  }

  function Sorted(value: string, sep: string): string
    requires sep != ""
  {
    var parts := Split(value, sep);
    Concat(parts, |parts| / 2)
  }

  predicate Encoded(field: string) {
    EndsWith(field, "_filter") || EndsWith(field, "_ac") || EndsWith(field, "_acid")
  }

  predicate Location(field: string) {
    field == "location.comm" || field == "location.coll"
  }

  /** Matches `\((.*?)\)` as a whole: a dot does not match a line terminator. */
  predicate Bracketed(s: string) {
    |s| >= 2 && s[0] == '(' && s[|s| - 1] == ')' &&
    forall i | 0 < i < |s| - 1 :: s[i] !in {'\n', '\r', '\U{0085}', '\U{2028}', '\U{2029}'}
  }

  /** The names of communities and collections are looked up elsewhere. */
  method TransformDisplayedValue(field: string, value: string, sep: string, locationName: (string, string) -> string)
    returns (shown: string)
    requires sep != ""
    ensures shown ==
      if Location(field) then locationName(field, value)
      else if Encoded(field) then Displayed(value, sep)
      else if Bracketed(value) then value[1..|value| - 1] else value
  {
    if Location(field) { return locationName(field, value); }
    if !Encoded(field) { return if Bracketed(value) then value[1..|value| - 1] else value; }
    shown := SecondHalf(Split(value, sep));
  }

  /** The displayed parts, one after the other. */
  method SecondHalf(parts: seq<string>) returns (buffer: string)
    ensures buffer == Befores(parts, |parts| / 2)
  {
    buffer := "";
    ghost var all := Befores(parts, |parts| / 2);
    assert "" + all == all;
    var i := |parts| / 2;
    while i < |parts|
      invariant |parts| / 2 <= i <= |parts|
      invariant Along(buffer, Befores(parts, i), all)
    {
      AlongNext(buffer, BeforeAuthority(parts[i]), Befores(parts, i + 1), all);
      buffer := buffer + BeforeAuthority(parts[i]);
      i := i + 1;
    }
    assert buffer + "" == buffer;
  }

  method TransformAuthorityValue(field: string, value: string, sep: string) returns (authority: Option<string>)
    requires sep != ""
    ensures authority ==
      if Location(field) then Some(value) else if Encoded(field) then Authority(value, sep) else None
  {
    if Location(field) { return Some(value); }
    if !Encoded(field) { return None; }
    var buffer := Authorities(Split(value, sep));
    authority := if |buffer| > 0 then Some(buffer) else None;
  }

  /** The authorities of the displayed parts, one after the other. */
  method Authorities(parts: seq<string>) returns (buffer: string)
    ensures buffer == Afters(parts, |parts| / 2)
  {
    buffer := "";
    ghost var all := Afters(parts, |parts| / 2);
    assert "" + all == all;
    var i := |parts| / 2;
    while i < |parts|
      invariant |parts| / 2 <= i <= |parts|
      invariant Along(buffer, Afters(parts, i), all)
    {
      AlongNext(buffer, AfterAuthority(parts[i]), Afters(parts, i + 1), all);
      var split := "";
      if Find(parts[i], AUTHORITY_SEPARATOR, 0).Some? { split := AfterAuthority(parts[i]); }
      buffer := buffer + split;
      i := i + 1;
    }
    assert buffer + "" == buffer;
  }

  method TransformSortValue(field: string, value: string, sep: string, locationName: (string, string) -> string)
    returns (key: string)
    requires sep != ""
    ensures key ==
      if Location(field) then locationName(field, value)
      else if Encoded(field) then Sorted(value, sep)
      else if Bracketed(value) then value[1..|value| - 1] else value
  {
    if Location(field) { return locationName(field, value); }
    if !Encoded(field) { return if Bracketed(value) then value[1..|value| - 1] else value; }
    var parts := Split(value, sep);
    key := "";
    var i := 0;
    while i < |parts| / 2
      invariant 0 <= i <= |parts| / 2
      invariant key == Concat(parts, i)
    {
      key := key + parts[i];
      i := i + 1;
    }
  }
}
