/** The configuration XML format: a <configuration> root, one child per configurable named after
    the type id with a name attribute, and one <paramKey>value</paramKey> child per parameter. */
module ConfigXml {
  import opened Wrappers
  import opened ConfigTypes
  import opened PairMaps
  import opened Strings

  /** A DOM node, reduced to what the format uses. */
  datatype Node =
    | Element(tag: string, attributes: map<string, string>, children: seq<Node>)
    | Text(content: string)

  datatype Document = Document(root: Node)

  /** Node.getTextContent(): the concatenated text below a node. */
  function TextContent(n: Node): string
    decreases n, 1
  {
    match n
    case Text(s) => s
    case Element(_, _, kids) => ConcatText(kids)
  }

  function ConcatText(kids: seq<Node>): string
    decreases kids, 0
  {
    if kids == [] then "" else ConcatText(kids[..|kids| - 1]) + TextContent(kids[|kids| - 1])
  }

  /** Element.getAttribute("name"), which answers "" for a missing attribute. */
  function NameAttribute(e: Node): string
  {
    if e.Element? && "name" in e.attributes then e.attributes["name"] else ""
  }

  /** (tag, text) of every element child, in document order. */
  function ParamPairs(kids: seq<Node>): seq<(string, string)>
  {
    if kids == [] then []
    else
      var last := kids[|kids| - 1];
      ParamPairs(kids[..|kids| - 1]) + (if last.Element? then [(last.tag, TextContent(last))] else [])
  }

  /** (name attribute, parameter map) of every element child tagged with the type id. */
  function ConfigPairs(kids: seq<Node>, typeId: string): seq<(string, map<string, string>)>
  {
    if kids == [] then []
    else
      var last := kids[|kids| - 1];
      ConfigPairs(kids[..|kids| - 1], typeId)
        + (if last.Element? && last.tag == typeId
           then [(NameAttribute(last), MapOfPairs(ParamPairs(last.children)))] else [])
  }

  /** What fromXML answers for a document: the root must be <configuration>; each matching
      child maps its name to its parameters, a later child of the same name winning. */
  function Configurations(doc: Document, typeId: string): Result<map<string, map<string, string>>, ConfigError>
  {
    if !doc.root.Element? || doc.root.tag != "configuration" then Failure(BadRoot)
    else Success(MapOfPairs(ConfigPairs(doc.root.children, typeId)))
  }

  /** The parameter map of one element by a loop over its children. */
  method ParametersOf(e: Node) returns (params: map<string, string>)
    requires e.Element?
    ensures params == MapOfPairs(ParamPairs(e.children))
  {
    params := map[];
    var kids := e.children;
    var j := 0;
    while j < |kids|
      invariant 0 <= j <= |kids|
      invariant params == MapOfPairs(ParamPairs(kids[..j]))
    {
      assert kids[..j + 1][..j] == kids[..j];
      var p := kids[j];
      if p.Element? {
        assert ParamPairs(kids[..j + 1]) == ParamPairs(kids[..j]) + [(p.tag, TextContent(p))];
        MapOfPairsSnoc(ParamPairs(kids[..j]), (p.tag, TextContent(p)));
        params := params[p.tag := TextContent(p)];
      } else {
        assert ParamPairs(kids[..j + 1]) == ParamPairs(kids[..j]);
      }
      j := j + 1;
    }
    assert kids[..|kids|] == kids;
  }

  /** fromXML(doc, configurator). */
  method FromXml(doc: Document, typeId: string) returns (r: Result<map<string, map<string, string>>, ConfigError>)
    ensures r == Configurations(doc, typeId)
  {
    var root := doc.root;
    if !root.Element? || root.tag != "configuration" {
      return Failure(BadRoot);
    }
    var result: map<string, map<string, string>> := map[];
    var kids := root.children;
    var i := 0;
    while i < |kids|
      invariant 0 <= i <= |kids|
      invariant result == MapOfPairs(ConfigPairs(kids[..i], typeId))
    {
      assert kids[..i + 1][..i] == kids[..i];
      var element := kids[i];
      if element.Element? && element.tag == typeId {
        var name := NameAttribute(element);
        var parameters := ParametersOf(element);
        assert ConfigPairs(kids[..i + 1], typeId) == ConfigPairs(kids[..i], typeId) + [(name, parameters)];
        MapOfPairsSnoc(ConfigPairs(kids[..i], typeId), (name, parameters));
        result := result[name := parameters];
      } else {
        assert ConfigPairs(kids[..i + 1], typeId) == ConfigPairs(kids[..i], typeId);
      }
      i := i + 1;
    }
    assert kids[..|kids|] == kids;
    return Success(result);
  }

  /** NameStartChar of the Name production, section 2.3 of XML 1.0 (Fifth Edition). */
  predicate NameStartChar(c: char)
  {
    || c == ':' || 'A' <= c <= 'Z' || c == '_' || 'a' <= c <= 'z'
    || '\U{00C0}' <= c <= '\U{00D6}' || '\U{00D8}' <= c <= '\U{00F6}' || '\U{00F8}' <= c <= '\U{02FF}'
    || '\U{0370}' <= c <= '\U{037D}' || '\U{037F}' <= c <= '\U{1FFF}' || '\U{200C}' <= c <= '\U{200D}'
    || '\U{2070}' <= c <= '\U{218F}' || '\U{2C00}' <= c <= '\U{2FEF}' || '\U{3001}' <= c <= '\U{D7FF}'
    || '\U{F900}' <= c <= '\U{FDCF}' || '\U{FDF0}' <= c <= '\U{FFFD}' || '\U{10000}' <= c <= '\U{EFFFF}'
  }

  /** NameChar of the same production. */
  predicate NameChar(c: char)
  {
    || NameStartChar(c) || c == '-' || c == '.' || '0' <= c <= '9' || c == '\U{00B7}'
    || '\U{0300}' <= c <= '\U{036F}' || '\U{203F}' <= c <= '\U{2040}'
  }

  /** A tag Document.createElement accepts; any other raises INVALID_CHARACTER_ERR. */
  predicate IsXmlName(s: string)
  {
    |s| > 0 && NameStartChar(s[0]) && forall i :: 1 <= i < |s| ==> NameChar(s[i])
  }

  /** toXML can write c under typeId: the type id and every key are element names and no
      value is null. */
  predicate Writable(typeId: string, c: Configurable)
  {
    IsXmlName(typeId) && forall k :: k in c.parameters ==> IsXmlName(k) && c.parameters[k].Some?
  }

  /** Every object stored under typeId can be written. */
  predicate AllWritable(typeId: string, stored: map<string, Configurable>)
  {
    forall n :: n in stored ==> Writable(typeId, stored[n])
  }

  /** e is what toXML throws at parameter k with value v: createElement(k) is called before
      the value is turned into text, so a bad key is reported before a null value. */
  predicate RejectsParameter(e: ConfigError, k: string, v: Option<string>)
  {
    || (e == InvalidXmlName(k) && !IsXmlName(k))
    || (e == NullParameterValue(k) && IsXmlName(k) && v.None?)
  }

  /** Parameter values of an object whose every value is non-null, as strings. */
  function StringValues(params: map<string, Option<string>>): map<string, string>
  {
    map k | k in params && params[k].Some? :: params[k].value
  }

  /** kids lists every parameter exactly once as <key>value</key>. */
  predicate ListsParameters(kids: seq<Node>, params: map<string, Option<string>>)
  {
    && (forall i :: 0 <= i < |kids| ==>
          kids[i].Element? && kids[i].attributes == map[] && kids[i].tag in params
          && params[kids[i].tag].Some? && kids[i].children == [Text(params[kids[i].tag].value)])
    && (forall i, j :: 0 <= i < j < |kids| ==> kids[i].tag != kids[j].tag)
    && (forall k :: k in params ==> exists i :: 0 <= i < |kids| && kids[i].tag == k)
  }

  /** e is what toXML produces for configurable c of type typeId. */
  predicate IsConfigurableElement(e: Node, typeId: string, c: Configurable)
  {
    e.Element? && e.tag == typeId && e.attributes == map["name" := c.name]
    && ListsParameters(e.children, c.parameters)
  }

  /** doc is what getConfigurablesAsXML produces for the objects stored under a type, listed
      in the order names. */
  ghost predicate DocumentOf(doc: Document, typeId: string, stored: map<string, Configurable>, names: seq<string>)
  {
    && doc.root.Element? && doc.root.tag == "configuration" && doc.root.attributes == map[]
    && |doc.root.children| == |names|
    && (forall n :: n in stored <==> n in names)
    && (forall i :: 0 <= i < |names| ==>
          names[i] in stored && IsConfigurableElement(doc.root.children[i], typeId, stored[names[i]]))
  }

  /** toXML's loop so far: kids lists, once each, the parameters no longer in rest, each with
      an element name and a value. */
  predicate ListedExcept(kids: seq<Node>, params: map<string, Option<string>>, rest: set<string>)
  {
    && rest <= params.Keys
    && (forall k :: k in params && k !in rest ==> IsXmlName(k) && params[k].Some?)
    && (forall i :: 0 <= i < |kids| ==>
          kids[i].Element? && kids[i].attributes == map[] && kids[i].tag in params && kids[i].tag !in rest
          && params[kids[i].tag].Some? && kids[i].children == [Text(params[kids[i].tag].value)])
    && (forall i, j :: 0 <= i < j < |kids| ==> kids[i].tag != kids[j].tag)
    && (forall k :: k in params && k !in rest ==> exists i :: 0 <= i < |kids| && kids[i].tag == k)
  }

  /** Writing one more parameter k keeps the loop's invariant. */
  lemma ListedStep(kids: seq<Node>, params: map<string, Option<string>>, rest: set<string>, k: string)
    requires ListedExcept(kids, params, rest) && k in rest && IsXmlName(k) && params[k].Some?
    ensures ListedExcept(kids + [Element(k, map[], [Text(params[k].value)])], params, rest - {k})
  {
    var kids' := kids + [Element(k, map[], [Text(params[k].value)])];
    forall k' | k' in params && k' !in rest - {k}
      ensures exists i :: 0 <= i < |kids'| && kids'[i].tag == k'
    {
      if k' == k {
        assert kids'[|kids|].tag == k';
      } else {
        var i :| 0 <= i < |kids| && kids[i].tag == k';
        assert kids'[i].tag == k';
      }
    }
  }

  /** toXML(doc, configurator, configurable); the parameters are listed in the unspecified
      order of the object's parameter map. Fails as Java does on a tag that is not an XML
      name and on a null value. */
  method ToXml(typeId: string, c: Configurable) returns (r: Result<Node, ConfigError>)
    ensures r.Failure? <==> !Writable(typeId, c)
    ensures !IsXmlName(typeId) ==> r == Failure(InvalidXmlName(typeId))
    ensures r.Failure? && IsXmlName(typeId) ==>
      exists k :: k in c.parameters && RejectsParameter(r.error, k, c.parameters[k])
    ensures r.Success? ==> IsConfigurableElement(r.value, typeId, c)
  {
    if !IsXmlName(typeId) {
      return Failure(InvalidXmlName(typeId));
    }
    var kids: seq<Node> := [];
    var rest := c.parameters.Keys;
    while rest != {}
      invariant ListedExcept(kids, c.parameters, rest)
      decreases |rest|
    {
      var k :| k in rest;
      if !IsXmlName(k) {
        assert RejectsParameter(InvalidXmlName(k), k, c.parameters[k]);
        return Failure(InvalidXmlName(k));
      }
      var value := c.parameters[k];
      if value.None? {
        assert RejectsParameter(NullParameterValue(k), k, c.parameters[k]);
        return Failure(NullParameterValue(k));
      }
      ListedStep(kids, c.parameters, rest, k);
      kids := kids + [Element(k, map[], [Text(value.value)])];
      rest := rest - {k};
    }
    return Success(Element(typeId, map["name" := c.name], kids));
  }

  /** getConfigurablesAsXML for the objects stored under one type (a TreeMap: ascending names). */
  method ConfigurablesAsXml(typeId: string, stored: map<string, Configurable>) returns (r: Result<Document, ConfigError>)
    ensures r.Failure? <==> !AllWritable(typeId, stored)
    ensures r.Success? ==> exists names :: StrictlyAscending(names) && DocumentOf(r.value, typeId, stored, names)
  {
    var names := SortedKeys(stored.Keys);
    var kids: seq<Node> := [];
    var i := 0;
    while i < |names|
      invariant 0 <= i <= |names| && |kids| == i
      invariant WrittenUpTo(kids, typeId, stored, names)
    {
      var e := ToXml(typeId, stored[names[i]]);
      if e.Failure? {
        assert names[i] in stored && !Writable(typeId, stored[names[i]]);
        return Failure(e.error);
      }
      WrittenSnoc(kids, typeId, stored, names, e.value);
      kids := kids + [e.value];
      i := i + 1;
    }
    DocumentBuilt(typeId, stored, names, kids);
    r := Success(Document(Element("configuration", map[], kids)));
  }

  /** kids holds the elements written for the first |kids| names, each of a writable object. */
  predicate WrittenUpTo(kids: seq<Node>, typeId: string, stored: map<string, Configurable>, names: seq<string>)
  {
    |kids| <= |names| &&
    forall j :: 0 <= j < |kids| ==>
      names[j] in stored && IsConfigurableElement(kids[j], typeId, stored[names[j]]) && Writable(typeId, stored[names[j]])
  }

  /** Writing the object of the next name extends what is written. */
  lemma WrittenSnoc(kids: seq<Node>, typeId: string, stored: map<string, Configurable>, names: seq<string>, e: Node)
    requires WrittenUpTo(kids, typeId, stored, names) && |kids| < |names| && names[|kids|] in stored
    requires IsConfigurableElement(e, typeId, stored[names[|kids|]]) && Writable(typeId, stored[names[|kids|]])
    ensures WrittenUpTo(kids + [e], typeId, stored, names)
  {
    var kids' := kids + [e];
    forall j | 0 <= j < |kids'|
      ensures names[j] in stored && IsConfigurableElement(kids'[j], typeId, stored[names[j]]) && Writable(typeId, stored[names[j]])
    {
      if j < |kids| {
        assert kids'[j] == kids[j];
      }
    }
  }

  /** Once every stored object is written, in the order names lists them, the document is the
      one getConfigurablesAsXML stands for. */
  lemma DocumentBuilt(typeId: string, stored: map<string, Configurable>, names: seq<string>, kids: seq<Node>)
    requires |kids| == |names| && StrictlyAscending(names) && forall x :: x in names <==> x in stored
    requires WrittenUpTo(kids, typeId, stored, names)
    ensures DocumentOf(Document(Element("configuration", map[], kids)), typeId, stored, names)
    ensures exists ns :: StrictlyAscending(ns) && DocumentOf(Document(Element("configuration", map[], kids)), typeId, stored, ns)
    ensures AllWritable(typeId, stored)
  {
    forall n | n in stored
      ensures Writable(typeId, stored[n])
    {
      var j :| 0 <= j < |names| && names[j] == n;
    }
  }

  /** The text of <key>value</key> is value. */
  lemma TextOfParameterElement(k: string, v: string)
    ensures TextContent(Element(k, map[], [Text(v)])) == v
  {
    var kids := [Text(v)];
    assert kids[..0] == [];
    assert ConcatText(kids) == ConcatText(kids[..0]) + TextContent(kids[0]);
  }

  lemma {:induction false} ParamPairsOfElements(kids: seq<Node>)
    requires forall i :: 0 <= i < |kids| ==> kids[i].Element?
    ensures |ParamPairs(kids)| == |kids|
    ensures forall i :: 0 <= i < |kids| ==> ParamPairs(kids)[i] == (kids[i].tag, TextContent(kids[i]))
  {
    if kids != [] {
      ParamPairsOfElements(kids[..|kids| - 1]);
    }
  }

  lemma {:induction false} ConfigPairsOfMatching(kids: seq<Node>, typeId: string)
    requires forall i :: 0 <= i < |kids| ==> kids[i].Element? && kids[i].tag == typeId
    ensures |ConfigPairs(kids, typeId)| == |kids|
    ensures forall i :: 0 <= i < |kids| ==>
      ConfigPairs(kids, typeId)[i] == (NameAttribute(kids[i]), MapOfPairs(ParamPairs(kids[i].children)))
  {
    if kids != [] {
      var init, last := kids[..|kids| - 1], kids[|kids| - 1];
      ConfigPairsOfMatching(init, typeId);
      var pair := (NameAttribute(last), MapOfPairs(ParamPairs(last.children)));
      assert ConfigPairs(kids, typeId) == ConfigPairs(init, typeId) + [pair];
      forall i | 0 <= i < |kids|
        ensures ConfigPairs(kids, typeId)[i] == (NameAttribute(kids[i]), MapOfPairs(ParamPairs(kids[i].children)))
      {
        if i < |init| {
          assert kids[i] == init[i];
        }
      }
    }
  }

  /** Reading back the element toXML wrote for c gives c's parameters as strings. */
  lemma ParametersRoundTrip(e: Node, typeId: string, c: Configurable)
    requires IsConfigurableElement(e, typeId, c)
    ensures MapOfPairs(ParamPairs(e.children)) == StringValues(c.parameters)
  {
    var kids := e.children;
    ParamPairsOfElements(kids);
    var ps := ParamPairs(kids);
    forall i | 0 <= i < |ps|
      ensures ps[i].0 in StringValues(c.parameters) && StringValues(c.parameters)[ps[i].0] == ps[i].1
    {
      TextOfParameterElement(kids[i].tag, c.parameters[kids[i].tag].value);
    }
    forall k | k in StringValues(c.parameters)
      ensures exists i :: 0 <= i < |ps| && ps[i].0 == k
    {
      var i :| 0 <= i < |kids| && kids[i].tag == k;
      assert ps[i].0 == k;
    }
    MapOfPairsOfDistinct(ps, StringValues(c.parameters));
  }

  /** fromXML(getConfigurablesAsXML(...)) gives every stored name with its parameters' string
      values, whatever order the names were written in. */
  lemma XmlRoundTrip(doc: Document, typeId: string, stored: map<string, Configurable>, names: seq<string>)
    requires DocumentOf(doc, typeId, stored, names)
    requires StrictlyAscending(names)
    requires forall n :: n in stored ==> stored[n].name == n
    ensures Configurations(doc, typeId) == Success(map n | n in stored :: StringValues(stored[n].parameters))
  {
    var kids := doc.root.children;
    ConfigPairsOfMatching(kids, typeId);
    var ps := ConfigPairs(kids, typeId);
    var expected := map n | n in stored :: StringValues(stored[n].parameters);
    forall i | 0 <= i < |ps|
      ensures ps[i].0 == names[i]
      ensures ps[i].0 in expected && expected[ps[i].0] == ps[i].1
    {
      ParametersRoundTrip(kids[i], typeId, stored[names[i]]);
    }
    forall i, j | 0 <= i < j < |ps|
      ensures ps[i].0 != ps[j].0
    {
      LexLessIrreflexive(names[i]);
    }
    forall n | n in expected
      ensures exists i :: 0 <= i < |ps| && ps[i].0 == n
    {
      var i :| 0 <= i < |names| && names[i] == n;
      assert ps[i].0 == n;
    }
    MapOfPairsOfDistinct(ps, expected);
  }
}
