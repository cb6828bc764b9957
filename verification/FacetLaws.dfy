/** What the facet decoders show, said of the field name and the stored text. */
module FacetLaws {
  import opened FacetCodec
  import opened FacetRoundTrip
  import opened Prelude
  import opened Strings

  /** Values are encoded in the fields whose names end in one of three ways. */
  lemma EncodedFields(field: string)
    ensures Encoded(field) <==>
      || (exists name :: field == name + "_filter")
      || (exists name :: field == name + "_ac")
      || (exists name :: field == name + "_acid")
  {
    EndingIff(field, "_filter");
    EndingIff(field, "_ac");
    EndingIff(field, "_acid");
  }

  lemma EndingIff(field: string, ending: string)
    ensures EndsWith(field, ending) <==> exists name :: field == name + ending
  {
    if EndsWith(field, ending) { assert field == field[..|field| - |ending|] + ending; }
    if name :| field == name + ending { assert field[|name|..] == ending; }
  }

  predicate EndsLine(c: char) {
    c == '\n' || c == '\r' || c == '\U{0085}' || c == '\U{2028}' || c == '\U{2029}'
  }

  /** Brackets come off a value that has them around a single line. */
  lemma BracketedIff(value: string)
    ensures Bracketed(value) <==>
      exists inner: string :: value == "(" + inner + ")" && forall c | c in inner :: !EndsLine(c)
  {
    if Bracketed(value) {
      var inner := value[1..|value| - 1];
      assert value == "(" + inner + ")";
      forall c | c in inner ensures !EndsLine(c) {
        var i :| 0 <= i < |inner| && inner[i] == c;
        assert value[i + 1] == c;
      }
    }
    if inner: string :| value == "(" + inner + ")" && forall c | c in inner :: !EndsLine(c) {
      forall i | 0 < i < |value| - 1 ensures !EndsLine(value[i]) {
        assert value[i] == inner[i - 1];
      }
    }
  }

  /** Communities and collections are found by two fields. */
  lemma LocationFields()
    ensures Location("location.comm") && Location("location.coll") && !Location("location")
    ensures forall field :: Location(field) ==> field == "location.comm" || field == "location.coll"
    ensures FILTER_SEPARATOR == "\n|||\n" && AUTHORITY_SEPARATOR == "###"
  {
  }

  function Ending(t: FacetType): string {
    if t.TextFacet? then "_filter" else if t.DateFacet? then ".year" else if t.Ac? then "_ac"
    else if t.AuthorityFacet? then "_acid" else if t.Hierarchical? then "_tax_0_filter" else ""
  }

  lemma NamedByType(t: FacetType, field: string)
    ensures TransformFacetField(t, field, false) == Some(field + Ending(t))
  {
    assert field + "" == field;
  }

  /** The name without its ending: what stands before the last `_tax_` of a
      hierarchical facet, or all of it if there is none; before the last ending
      of any other type that has one. */
  lemma RemovedIff(t: FacetType, name: string, field: string)
    ensures var sought := if t.Hierarchical? then "_tax_" else Ending(t);
      TransformFacetField(t, name, true) == Some(field) <==>
        if t == Standard || t == Other then field == name
        else
          || (t == Hierarchical && field == name && forall j: nat :: !Occurs(name, sought, j))
          || (|field| <= |name| && field == name[..|field|] && Occurs(name, sought, |field|)
               && forall j: nat | j > |field| :: !Occurs(name, sought, j))
  {
  }

  /** Of several parts the decoders put together the displayed texts, the
      authorities and the sort keys in their order. */
  lemma PartsInOrder(a: string, b: string)
    ensures Befores([a, b], 0) == BeforeAuthority(a) + BeforeAuthority(b)
    ensures Afters([a, b], 0) == AfterAuthority(a) + AfterAuthority(b)
    ensures Concat([a, b], 2) == a + b
  {
    var parts := [a, b];
    assert Befores(parts, 2) == "" && Befores(parts, 1) == BeforeAuthority(b) + "" == BeforeAuthority(b);
    assert Afters(parts, 2) == "" && Afters(parts, 1) == AfterAuthority(b) + "" == AfterAuthority(b);
    assert Concat(parts, 0) == "" && Concat(parts, 1) == "" + a == a;
  }
}
