/**
 * The column-reference resolver `parse_col` of cols.py and pycsv.py: `@N` names a position,
 * `@"Name"` the first header entry equal to Name. Anything else, a name that is absent or a
 * position past the end of the header resolves to None. A negative `@-N`, which the source lets
 * through to Python's from-the-end indexing, resolves to None here as well.
 */
module ColRef {
  import opened Wrappers
  import opened Text
  import opened Lists

  /** The name inside a quoted reference body (`ref[1:-1]`); a lone `"` gives the empty name. */
  function QuotedName(body: string): string
    requires |body| >= 1
  {
    if |body| >= 2 then body[1..|body| - 1] else ""
  }

  /** The body after `@` has the quoted-name form: it starts and ends with `"`. */
  predicate IsQuotedBody(body: string) {
    |body| >= 1 && body[0] == '"' && body[|body| - 1] == '"'
  }

  /** `parse_col(ref, header)`. */
  function ParseCol(ref: string, header: seq<string>): (r: Option<nat>)
    ensures r.Some? ==> r.value < |header|
  {
    if |ref| == 0 || ref[0] != '@' then None
    else
      var body := ref[1..];
      if IsQuotedBody(body) then IndexOf(header, QuotedName(body))
      else match ParseInt(body)
        case None => None
        case Some(i) => if 0 <= i < |header| then Some(i as nat) else None
  }

  /** The reference `@N` as a script writes it. */
  function PosRef(i: nat): string {
    "@" + NatToString(i)
  }

  /** The reference `@"Name"` as a script writes it. */
  function NameRef(name: string): string {
    "@\"" + name + "\""
  }

  /** A reference that does not start with `@` never resolves. */
  lemma ParseColNeedsMarker(ref: string, header: seq<string>)
    requires |ref| == 0 || ref[0] != '@'
    ensures ParseCol(ref, header) == None
  {
  }

  /**
   * `@"Name"` resolves exactly when Name is in the header, and then to the first position
   * holding Name.
   */
  lemma ParseColByName(name: string, header: seq<string>)
    ensures ParseCol(NameRef(name), header).Some? <==> name in header
    ensures ParseCol(NameRef(name), header).Some? ==>
              var i := ParseCol(NameRef(name), header).value;
              header[i] == name && forall j | 0 <= j < i :: header[j] != name
  {
    var body := NameRef(name)[1..];
    assert body == "\"" + name + "\"";
    assert QuotedName(body) == name;
  }

  /** `@N` resolves to N exactly when N is a position of the header. */
  lemma ParseColByPosition(i: nat, header: seq<string>)
    ensures ParseCol(PosRef(i), header) == if i < |header| then Some(i) else None
  {
    var body := PosRef(i)[1..];
    assert body == NatToString(i);
    assert !IsQuotedBody(body) by {
      assert IsDigit(body[0]);
    }
    ParseIntOfString(i);
  }

  /**
   * Any other body after `@` resolves only if `int()` accepts it and the number is a position
   * of the header; otherwise the conversion fails or the bound check rejects it.
   */
  lemma ParseColNumeric(ref: string, header: seq<string>)
    requires |ref| >= 1 && ref[0] == '@' && !IsQuotedBody(ref[1..])
    ensures ParseCol(ref, header).Some? <==>
              ParseInt(ref[1..]).Some? && 0 <= ParseInt(ref[1..]).value < |header|
    ensures ParseCol(ref, header).Some? ==> ParseCol(ref, header).value == ParseInt(ref[1..]).value
  {
  }
}
