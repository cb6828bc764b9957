/** SWORD URLs, and reading the objects they name back from them. */
module SwordUrls {
  import opened Decimal
  import opened Prelude
  import opened Strings

  /** What a parser gets out of a URL: an id or a handle, the error the protocol
      has for a bad URL, or an exception nobody expected. */
  datatype Parsed<T> = Found(value: T) | BadUrl | Crash

  function FirstSlash(s: string, from: nat): (i: Option<nat>)
    requires from <= |s|
    ensures i.Some? ==> from <= i.value < |s|
    decreases |s| - from
  {
    if from == |s| then None else if s[from] == '/' then Some(from) else FirstSlash(s, from + 1)
  }

  // ---------- items

  const EDIT_MEDIA := "/edit-media/"
  const EDIT := "/edit/"
  const STATEMENT := "/statement/"
  const BITSTREAM := "bitstream/"

  function GetEditIRI(base: string, id: int): string { base + EDIT + ToString(id) }

  function GetContentUrl(base: string, id: int): string { base + EDIT_MEDIA + ToString(id) }

  function GetMediaFeedUrl(base: string, id: int): string { base + EDIT_MEDIA + ToString(id) + ".atom" }

  function GetAtomStatementUri(base: string, id: int): string { base + STATEMENT + ToString(id) + ".atom" }

  function GetOreStatementUri(base: string, id: int): string { base + STATEMENT + ToString(id) + ".rdf" }

  function WithoutType(iid: string): string {
    if EndsWith(iid, ".atom") then iid[..|iid| - 5] else if EndsWith(iid, ".rdf") then iid[..|iid| - 4] else iid
  }

  function ParseId(digits: string): Parsed<int> {
    match ParseInt(digits) case None => Crash case Some(n) => Found(n)
  }

  function GetItem(base: string, location: string): Parsed<int> {
    if StartsWith(location, base + EDIT_MEDIA) then ParseId(WithoutType(location[|base| + |EDIT_MEDIA|..]))
    else if StartsWith(location, base + EDIT) then ParseId(WithoutType(location[|base| + |EDIT|..]))
    else if StartsWith(location, base + STATEMENT) then ParseId(WithoutType(location[|base| + |STATEMENT|..]))
    else BadUrl
  }

  predicate ItemPath(path: string) {
    path == EDIT_MEDIA || path == EDIT || path == STATEMENT
  }

  predicate TypeSuffix(suffix: string) {
    suffix == "" || suffix == ".atom" || suffix == ".rdf"
  }

  lemma Tail(base: string, path: string, rest: string)
    ensures StartsWith(base + path + rest, base + path) && (base + path + rest)[|base| + |path|..] == rest
  {
  }

  /** The three paths cannot be taken for one another. */
  lemma OnePath(base: string, path: string, rest: string, other: string)
    requires ItemPath(path) && ItemPath(other)
    ensures StartsWith(base + path + rest, base + other) <==> path == other
  {
    var s := base + path + rest;
    if path == other {
      Tail(base, path, rest);
    } else {
      assert |s| > |base| + 5 && s[|base| + 1] == path[1] && s[|base| + 5] == (path + rest)[5];
    }
  }

  lemma GetItemOf(base: string, path: string, rest: string)
    requires ItemPath(path)
    ensures GetItem(base, base + path + rest) == ParseId(WithoutType(rest))
  {
    OnePath(base, path, rest, EDIT_MEDIA);
    OnePath(base, path, rest, EDIT);
    OnePath(base, path, rest, STATEMENT);
    Tail(base, path, rest);
  }

  /** A number ends with a digit, so no more than the type is taken off it. */
  lemma TypeTakenOff(number: string, suffix: string)
    requires TypeSuffix(suffix) && ParseInt(number).Some?
    ensures WithoutType(number + suffix) == number
  {
    var s := number + suffix;
    LastIsDigit(number);
    if suffix == "" {
      assert s == number;
    } else {
      assert s[|s| - |suffix|..] == suffix && s[..|number|] == number;
      assert s[|s| - 1] == suffix[|suffix| - 1];
    }
  }

  lemma LastIsDigit(number: string)
    requires ParseInt(number).Some?
    ensures number != "" && '0' <= number[|number| - 1] <= '9'
  {
    var digits := if number[0] == '-' || number[0] == '+' then number[1..] else number;
    assert ParseDigits(digits).Some?;
    assert digits != "" && digits[|digits| - 1] == number[|number| - 1];
  }

  /** `getItem` inverts every URL made for an item, whatever the base URL. */
  lemma ItemUrlsParseBack(base: string, id: int)
    requires MIN_INT <= id <= MAX_INT
    ensures GetItem(base, GetEditIRI(base, id)) == Found(id)
    ensures GetItem(base, GetContentUrl(base, id)) == Found(id)
    ensures GetItem(base, GetMediaFeedUrl(base, id)) == Found(id)
    ensures GetItem(base, GetAtomStatementUri(base, id)) == Found(id)
    ensures GetItem(base, GetOreStatementUri(base, id)) == Found(id)
  {
    ItemUrlParsesBack(base, EDIT, ToString(id), "", id);
    ItemUrlParsesBack(base, EDIT_MEDIA, ToString(id), "", id);
    ItemUrlParsesBack(base, EDIT_MEDIA, ToString(id), ".atom", id);
    ItemUrlParsesBack(base, STATEMENT, ToString(id), ".atom", id);
    ItemUrlParsesBack(base, STATEMENT, ToString(id), ".rdf", id);
    ParseToString(id);
  }

  lemma ItemUrlParsesBack(base: string, path: string, number: string, suffix: string, id: int)
    requires ItemPath(path) && TypeSuffix(suffix)
    ensures base + path + number + suffix == base + path + (number + suffix)
    ensures suffix == "" ==> base + path + number + suffix == base + path + number
    ensures ParseInt(number) == Some(id) ==> GetItem(base, base + path + number + suffix) == Found(id)
  {
    assert base + path + number + suffix == base + path + (number + suffix);
    GetItemOf(base, path, number + suffix);
    if ParseInt(number) == Some(id) { TypeTakenOff(number, suffix); }
  }

  predicate NamesItem(base: string, location: string, id: int, path: string, number: string, suffix: string) {
    ItemPath(path) && TypeSuffix(suffix) && ParseInt(number) == Some(id) && location == base + path + number + suffix
  }

  lemma ItemNamed(base: string, location: string, id: int) returns (path: string, number: string, suffix: string)
    requires GetItem(base, location) == Found(id)
    ensures NamesItem(base, location, id, path, number, suffix)
  {
    path := if StartsWith(location, base + EDIT_MEDIA) then EDIT_MEDIA
            else if StartsWith(location, base + EDIT) then EDIT else STATEMENT;
    var iid := AfterPrefix(location, base, path);
    number, suffix := TypeSplit(iid);
    Assoc(base + path, number, suffix);
  }

  lemma AfterPrefix(s: string, base: string, path: string) returns (rest: string)
    requires StartsWith(s, base + path)
    ensures rest == s[|base| + |path|..] && s == base + path + rest
  {
    rest := s[|base + path|..];
    assert s == s[..|base + path|] + rest;
  }

  lemma TypeSplit(iid: string) returns (number: string, suffix: string)
    ensures number == WithoutType(iid) && TypeSuffix(suffix) && iid == number + suffix
  {
    number := WithoutType(iid);
    suffix := iid[|number|..];
    assert iid == iid[..|number|] + suffix;
  }

  /** And it accepts nothing else: a URL names an item if and only if it is the
      base, one of the three paths, a number and possibly a type. */
  lemma ItemUrlIff(base: string, location: string, id: int)
    ensures GetItem(base, location) == Found(id) <==>
      (exists path, number, suffix :: NamesItem(base, location, id, path, number, suffix))
  {
    if GetItem(base, location) == Found(id) {
      var path, number, suffix := ItemNamed(base, location, id);
    }
    forall path, number, suffix | NamesItem(base, location, id, path, number, suffix)
      ensures GetItem(base, location) == Found(id)
    {
      ItemUrlParsesBack(base, path, number, suffix, id);
    }
  }

  // ---------- bitstreams

  function GetActionableBitstreamUrl(base: string, id: int, encodedName: string): string {
    base + (EDIT_MEDIA + BITSTREAM) + (ToString(id) + "/" + encodedName)
  }

  function GetBitstream(base: string, location: string): Parsed<int> {
    var prefix := base + (EDIT_MEDIA + BITSTREAM);
    if !StartsWith(location, prefix) then BadUrl
    else
      var parts := location[|prefix|..];
      match FirstSlash(parts, 0)
      case None => Crash
      case Some(slash) => ParseId(parts[..slash])
  }

  lemma {:induction false} FirstSlashAfter(head: string, tail: string, from: nat)
    requires '/' !in head && from <= |head|
    ensures FirstSlash(head + "/" + tail, from) == Some(|head|)
    decreases |head| - from
  {
    var s := head + "/" + tail;
    if from == |head| {
      assert s[from] == '/';
    } else {
      assert s[from] == head[from];
      FirstSlashAfter(head, tail, from + 1);
    }
  }

  lemma NoSlash(id: int)
    ensures '/' !in ToString(id)
  {
  }

  /** `getBitstream` inverts the bitstream URL, even for a name with slashes in it. */
  lemma BitstreamUrlParsesBack(base: string, id: int, encodedName: string)
    requires MIN_INT <= id <= MAX_INT
    ensures GetBitstream(base, GetActionableBitstreamUrl(base, id, encodedName)) == Found(id)
  {
    var parts := ToString(id) + "/" + encodedName;
    Tail(base, EDIT_MEDIA + BITSTREAM, parts);
    NoSlash(id);
    FirstSlashAfter(ToString(id), encodedName, 0);
    assert parts[..|ToString(id)|] == ToString(id);
    ParseToString(id);
  }

  predicate NamesBitstream(base: string, location: string, id: int, number: string, rest: string) {
    && ParseInt(number) == Some(id) && '/' !in number
    && location == base + (EDIT_MEDIA + BITSTREAM) + (number + "/" + rest)
  }

  lemma {:induction false} FirstSlashFirst(s: string, from: nat)
    requires from <= |s| && FirstSlash(s, from).Some?
    ensures var slash := FirstSlash(s, from).value;
      s[slash] == '/' && forall i | from <= i < slash :: s[i] != '/'
    decreases |s| - from
  {
    if s[from] != '/' { FirstSlashFirst(s, from + 1); }
  }

  lemma BitstreamNamed(base: string, location: string, id: int) returns (number: string, rest: string)
    requires GetBitstream(base, location) == Found(id)
    ensures NamesBitstream(base, location, id, number, rest)
  {
    var parts := AfterPrefix(location, base, EDIT_MEDIA + BITSTREAM);
    var slash := FirstSlash(parts, 0).value;
    FirstSlashFirst(parts, 0);
    number, rest := parts[..slash], parts[slash + 1..];
    assert parts == number + "/" + rest;
  }

  /** A URL names a bitstream if and only if it is the base, the path, a number,
      a slash, and anything at all. */
  lemma BitstreamUrlIff(base: string, location: string, id: int)
    ensures GetBitstream(base, location) == Found(id) <==>
      exists number, rest :: NamesBitstream(base, location, id, number, rest)
  {
    if GetBitstream(base, location) == Found(id) {
      var number, rest := BitstreamNamed(base, location, id);
    }
    if number, rest :| NamesBitstream(base, location, id, number, rest) {
      Tail(base, EDIT_MEDIA + BITSTREAM, number + "/" + rest);
      FirstSlashAfter(number, rest, 0);
      assert (number + "/" + rest)[..|number|] == number;
    }
  }

  /** No URL names both an item and a bitstream. */
  lemma NotBoth(base: string, location: string)
    requires GetBitstream(base, location).Found?
    ensures GetItem(base, location) == Crash
  {
    var prefix := base + (EDIT_MEDIA + BITSTREAM);
    var parts := location[|prefix|..];
    var iid := BITSTREAM + parts;
    assert location == prefix + parts == base + EDIT_MEDIA + iid;
    GetItemOf(base, EDIT_MEDIA, iid);
    var number := WithoutType(iid);
    assert iid[0] == 'b' && iid[9] == '/' && |iid| > 10;
    var slash := FirstSlash(parts, 0).value;
    FirstSlashFirst(parts, 0);
    assert iid[10 + slash] == '/';
    assert |number| > 0 && number[0] == 'b';
    NotANumber(number);
  }

  lemma {:induction false} NotANumber(s: string)
    requires s != "" && s[0] == 'b'
    ensures ParseDigits(s) == None && ParseInt(s) == None
    decreases |s|
  {
    if |s| > 1 { NotANumber(s[..|s| - 1]); }
  }

  // ---------- collections and communities

  function GetDepositLocation(base: string, handle: string): string { base + "/" + handle }

  function ConstructSubServiceUrl(base: string, handle: string): string { base + "/" + handle }

  /** The handle `getCollection` resolves: it looks at the length of the base
      URL, not at the base URL. */
  function CollectionHandle(base: string, location: string): Parsed<string> {
    if |location| == |base| then BadUrl
    else if |location| < |base| then Crash
    else
      var rest := location[|base|..];
      var handle := if StartsWith(rest, "/") then rest[1..] else rest;
      if handle == "" then BadUrl else Found(handle)
  }

  function WithoutTrail(from: string): string {
    if EndsWith(from, "/") then from[..|from| - 1] else from
  }

  /** The handle `extractDSpaceObject` resolves. */
  function ServiceHandle(base: string, url: string): Parsed<string> {
    if !StartsWith(url, base) then BadUrl
    else
      var rest := url[|base|..];
      var from := if StartsWith(rest, "/") then rest[1..] else rest;
      Found(WithoutTrail(from))
  }

  /** What a location is made of for `getCollection` to read the handle from it. */
  predicate LocatesCollection(other: string, location: string, handle: string) {
    handle != "" && (location == other + "/" + handle || (location == other + handle && handle[0] != '/'))
  }

  lemma HandleLocated(other: string, base: string, location: string, handle: string)
    requires |other| == |base| && LocatesCollection(other, location, handle)
    ensures CollectionHandle(base, location) == Found(handle)
  {
    if location == other + "/" + handle {
      assert location[|base|..] == "/" + handle && ("/" + handle)[1..] == handle;
    } else {
      assert location[|base|..] == handle;
    }
  }

  lemma LocationOf(base: string, location: string, handle: string)
    requires CollectionHandle(base, location) == Found(handle)
    ensures LocatesCollection(location[..|base|], location, handle)
  {
    var other, rest := location[..|base|], location[|base|..];
    assert location == other + rest;
    if StartsWith(rest, "/") { assert rest == "/" + rest[1..] && location == other + "/" + rest[1..]; }
  }

  /** `getCollection` reads a handle from exactly the locations that begin with
      anything as long as the base URL, go on with a slash or without one, and
      end with the handle. */
  lemma CollectionHandleIff(base: string, location: string, handle: string)
    ensures CollectionHandle(base, location) == Found(handle) <==>
      exists other :: |other| == |base| && LocatesCollection(other, location, handle)
  {
    if CollectionHandle(base, location) == Found(handle) {
      LocationOf(base, location, handle);
    }
    if other :| |other| == |base| && LocatesCollection(other, location, handle) {
      HandleLocated(other, base, location, handle);
    }
  }

  /** Of those, the ones below the base URL itself are those that begin with it;
      on them it is right, and on all others it resolves a foreign address. */
  lemma OwnLocationIff(base: string, location: string, handle: string)
    requires CollectionHandle(base, location) == Found(handle)
    ensures LocatesCollection(base, location, handle) <==> StartsWith(location, base)
  {
    LocationOf(base, location, handle);
    if LocatesCollection(base, location, handle) {
      if location == base + "/" + handle {
        Assoc(base, "/", handle);
        assert (base + ("/" + handle))[..|base|] == base;
      } else {
        assert (base + handle)[..|base|] == base;
      }
    }
  }

  /** A deposit URL gives its handle back exactly if there is one, below the
      base URL and below any other address of the same length. */
  lemma DepositUrlParsesBack(base: string, other: string, handle: string)
    requires |other| == |base|
    ensures CollectionHandle(base, GetDepositLocation(other, handle)) == Found(handle) <==> handle != ""
  {
    var s := GetDepositLocation(other, handle);
    assert s[|base|..] == "/" + handle && ("/" + handle)[1..] == handle;
  }

  /** A URL of the base, perhaps a slash, the handle, and perhaps a slash. */
  predicate LocatesService(base: string, url: string, handle: string, lead: string, trail: string) {
    && (lead == "/" || (lead == "" && !StartsWith(handle + trail, "/")))
    && (trail == "/" || (trail == "" && !EndsWith(handle, "/")))
    && url == base + (lead + (handle + trail))
  }

  lemma TrailOff(handle: string, trail: string)
    requires trail == "/" || (trail == "" && !EndsWith(handle, "/"))
    ensures WithoutTrail(handle + trail) == handle
  {
    if trail == "" {
      assert handle + trail == handle;
    } else {
      var from := handle + trail;
      assert from[|from| - 1..] == "/" && from[..|from| - 1] == handle;
    }
  }

  lemma TrailOn(from: string) returns (trail: string)
    ensures trail == "/" || (trail == "" && !EndsWith(WithoutTrail(from), "/"))
    ensures from == WithoutTrail(from) + trail
  {
    trail := if EndsWith(from, "/") then "/" else "";
  }

  lemma LeadOff(base: string, lead: string, from: string)
    requires lead == "/" || (lead == "" && !StartsWith(from, "/"))
    ensures ServiceHandle(base, base + (lead + from)) == Found(WithoutTrail(from))
  {
    var rest := lead + from;
    assert (base + rest)[..|base|] == base && (base + rest)[|base|..] == rest;
    if lead == "" {
      assert rest == from;
    } else {
      assert rest[..1] == "/" && rest[1..] == from;
    }
  }

  /** `extractDSpaceObject` reads a handle from exactly the URLs below the base
      URL, one slash before it and one after it being optional. */
  lemma ServiceHandleIff(base: string, url: string, handle: string)
    ensures ServiceHandle(base, url) == Found(handle) <==>
      exists lead, trail :: LocatesService(base, url, handle, lead, trail)
  {
    if ServiceHandle(base, url) == Found(handle) {
      var rest := url[|base|..];
      assert url == base + rest;
      var lead := if StartsWith(rest, "/") then "/" else "";
      var from := if StartsWith(rest, "/") then rest[1..] else rest;
      assert rest == lead + from;
      var trail := TrailOn(from);
      assert LocatesService(base, url, handle, lead, trail);
    }
    if lead, trail :| LocatesService(base, url, handle, lead, trail) {
      TrailOff(handle, trail);
      LeadOff(base, lead, handle + trail);
    }
  }

  lemma ServiceUrlParsesBack(base: string, handle: string)
    ensures ServiceHandle(base, ConstructSubServiceUrl(base, handle)) == Found(handle) <==> !EndsWith(handle, "/")
  {
    Assoc(base, "/", handle);
    LeadOff(base, "/", handle);
  }
}
