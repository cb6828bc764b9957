/** SWORD URLs spelled out, and which error a URL gets. */
module SwordLaws {
  import opened Decimal
  import opened Strings
  import opened SwordUrls

  /** The URLs of an item, of a bitstream and of collections and communities. */
  lemma UrlsSpelled()
    ensures GetEditIRI("b", 7) == "b/edit/7" && GetContentUrl("b", 7) == "b/edit-media/7"
    ensures GetDepositLocation("b", "1/2") == "b/1/2" && ConstructSubServiceUrl("b", "1/2") == "b/1/2"
  {
    assert ToString(7) == "7";
  }

  lemma TypedUrlsSpelled()
    ensures GetMediaFeedUrl("b", 7) == "b/edit-media/7.atom"
    ensures GetAtomStatementUri("b", 7) == "b/statement/7.atom" && GetOreStatementUri("b", 7) == "b/statement/7.rdf"
  {
    assert ToString(7) == "7";
  }

  lemma BitstreamUrlSpelled()
    ensures GetActionableBitstreamUrl("b", 7, "c.d") == "b/edit-media/bitstream/7/c.d"
  {
    assert ToString(7) == "7";
    assert EDIT_MEDIA + BITSTREAM == "/edit-media/bitstream/";
  }

  ghost predicate Begins(s: string, start: string) {
    exists rest :: s == start + rest
  }

  lemma BeginsIff(s: string, start: string)
    ensures StartsWith(s, start) <==> Begins(s, start)
  {
    if StartsWith(s, start) { assert s == start + s[|start|..]; }
  }

  /** A URL that is not below one of the three addresses of items is a bad one,
      and what follows such an address but is no number is an exception. */
  lemma ItemFailsIff(base: string, location: string)
    ensures GetItem(base, location) == BadUrl <==>
      && !Begins(location, base + "/edit-media/") && !Begins(location, base + "/edit/")
      && !Begins(location, base + "/statement/")
    ensures GetItem(base, location) == Crash <==>
      GetItem(base, location) != BadUrl && forall id :: GetItem(base, location) != Found(id)
  {
    BeginsIff(location, base + "/edit-media/");
    BeginsIff(location, base + "/edit/");
    BeginsIff(location, base + "/statement/");
    assert GetItem(base, location).Found? ==> GetItem(base, location) == Found(GetItem(base, location).value);
  }

  lemma BitstreamFailsIff(base: string, location: string)
    ensures GetBitstream(base, location) == BadUrl <==> !Begins(location, base + "/edit-media/bitstream/")
  {
    assert EDIT_MEDIA + BITSTREAM == "/edit-media/bitstream/";
    BeginsIff(location, base + "/edit-media/bitstream/");
  }

  /** A location as long as the base URL, or longer by a slash, is incomplete; a
      shorter one is an exception. */
  lemma CollectionFailsIff(base: string, location: string)
    ensures CollectionHandle(base, location) == Crash <==> |location| < |base|
    ensures CollectionHandle(base, location) == BadUrl <==>
      |location| == |base| || (|location| == |base| + 1 && location[|base|] == '/')
  {
  }

  lemma ServiceFailsIff(base: string, url: string)
    ensures ServiceHandle(base, url) == BadUrl <==> !Begins(url, base)
    ensures ServiceHandle(base, url) != Crash
  {
    BeginsIff(url, base);
  }
}
