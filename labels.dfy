/**
 * The ownership label the job client attaches to every job it creates, and the
 * equality label selector with which it lists and bulk-deletes them.
 */
module Labels {
  import opened Wrappers
  import opened Tokens

  type LabelMap = map<string, string>

  const OwnerKey: string := "job-type"
  const OwnerValue: string := "k6"

  /** The selector string passed to the list call by both List and DeleteAll. */
  const OwnerSelector: string := "job-type=k6"

  /** The labels of every job the client creates. */
  function OwnerLabels(): (labels: LabelMap)
    ensures OwnerKey in labels && labels[OwnerKey] == OwnerValue && labels.Keys == {OwnerKey}
  {
    map[OwnerKey := OwnerValue]
  }

  /** One equality requirement `key=value` of a label selector. */
  datatype Requirement = Equals(key: string, value: string)

  /** A character a label key or value may hold: a letter, a digit, `-`, `_` or `.`. */
  predicate LabelChar(c: char)
  {
    ('a' <= c <= 'z') || ('A' <= c <= 'Z') || ('0' <= c <= '9') || c == '-' || c == '_' || c == '.'
  }

  /** A label value: label characters only. */
  predicate ValueText(s: string)
  {
    forall i :: 0 <= i < |s| ==> LabelChar(s[i])
  }

  /** A label key: label characters and at most one `/`, which separates a prefix from the name. */
  predicate KeyText(s: string)
  {
    (forall i :: 0 <= i < |s| ==> LabelChar(s[i]) || s[i] == '/') && Occurrences(s, '/') <= 1
  }

  /** A requirement that can be written as a selector string and read back. */
  predicate Writable(req: Requirement)
  {
    req.key != "" && KeyText(req.key) && ValueText(req.value)
  }

  function Render(req: Requirement): string
  {
    req.key + "=" + req.value
  }

  /**
   * Reads a single `key=value` selector whose key and value are made of label
   * characters; every other string is refused.
   */
  function ParseSelector(selector: string): (r: Option<Requirement>)
    ensures r.Some? ==> Writable(r.value) && Render(r.value) == selector
  {
    var parts := Split(selector, '=');
    if |parts| == 2 && Writable(Equals(parts[0], parts[1])) then
      JoinSplit(selector, '=');
      assert parts == [parts[0]] + parts[1..];
      Some(Equals(parts[0], parts[1]))
    else
      None
  }

  /** A two-piece selector whose requirement is not writable is refused. */
  lemma RefusedPieces(key: string, value: string)
    requires '=' !in key && '=' !in value
    requires !Writable(Equals(key, value))
    ensures ParseSelector(key + "=" + value) == None
  {
    var parts := [key, value];
    assert FreeOf(parts, '=');
    assert Join(parts, '=') == key + "=" + value;
    SplitJoin(parts, '=');
  }

  /**
   * Operators other than `=` and separating commas are refused, not read as
   * part of a label.
   */
  lemma ParseSelectorRefuses()
    ensures ParseSelector("a!=b") == None
    ensures ParseSelector("a,b=c") == None
  {
    assert !KeyText("a!") by { assert "a!"[1] == '!'; }
    RefusedPieces("a!", "b");
    assert "a!" + "=" + "b" == "a!=b";
    assert !KeyText("a,b") by { assert "a,b"[1] == ','; }
    RefusedPieces("a,b", "c");
    assert "a,b" + "=" + "c" == "a,b=c";
  }

  /** Blanks around `=` and a doubled `=` are refused. */
  lemma ParseSelectorRefusesBlanks()
    ensures ParseSelector("a = b") == None
    ensures ParseSelector("a==b") == None
  {
    assert !KeyText("a ") by { assert "a "[1] == ' '; }
    RefusedPieces("a ", " b");
    assert "a " + "=" + " b" == "a = b";
    var double := ["a", "", "b"];
    assert FreeOf(double, '=') && Join(double, '=') == "a==b";
    SplitJoin(double, '=');
  }

  /** A `/` in a value, or a second `/` in a key, is refused. */
  lemma ParseSelectorRefusesSlashes()
    ensures ParseSelector("a=b/c") == None
    ensures ParseSelector("a/b/c=d") == None
  {
    assert !ValueText("b/c") by { assert "b/c"[1] == '/'; }
    RefusedPieces("a", "b/c");
    assert "a" + "=" + "b/c" == "a=b/c";
    assert Occurrences("a/b/c", '/') == 2 by {
      assert "a/b/c"[1..] == "/b/c" && "/b/c"[1..] == "b/c" && "b/c"[1..] == "/c" && "/c"[1..] == "c";
      assert "c"[1..] == "";
    }
    RefusedPieces("a/b/c", "d");
    assert "a/b/c" + "=" + "d" == "a/b/c=d";
  }

  /** Rendering a writable requirement and parsing it back gives the requirement. */
  lemma ParseRender(req: Requirement)
    requires Writable(req)
    ensures ParseSelector(Render(req)) == Some(req)
  {
    var parts := [req.key, req.value];
    assert !LabelChar('=');
    assert FreeOf(parts, '=');
    assert Join(parts, '=') == Render(req);
    SplitJoin(parts, '=');
  }

  /** Equality-selector semantics: the label is present with exactly that value. */
  predicate Matches(selector: string, labels: LabelMap)
  {
    match ParseSelector(selector)
    case Some(req) => req.key in labels && labels[req.key] == req.value
    case None => false
  }

  /** The owner selector selects exactly the label sets that carry `job-type=k6`. */
  lemma OwnerSelectorMatches(labels: LabelMap)
    ensures Matches(OwnerSelector, labels) <==> OwnerKey in labels && labels[OwnerKey] == OwnerValue
  {
    var owner := Equals(OwnerKey, OwnerValue);
    assert Occurrences(OwnerKey, '/') == 0;
    assert KeyText(OwnerKey) && ValueText(OwnerValue);
    assert Render(owner) == OwnerSelector;
    ParseRender(owner);
  }
}
