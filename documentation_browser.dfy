/** The operator help view: which operator it shows, the resource path of that operator's
    documentation file, the html post-processing of the converted documentation, and the choice
    of the process a tutorial link opens. */
module DocumentationBrowser {
  import opened Wrappers

  const DOCUMENTATION_ROOT: string := "core/"

  /** The namespace attribute the converter leaves in the html, and the same text after its
      leading space. */
  const RMDOC_NAMESPACE: string := "xmlns:rmdoc=\"com.rapidminer.gui.OperatorDocumentationBrowser\""
  const RMDOC_XMLNS: string := " " + RMDOC_NAMESPACE

  /** The page shown while the documentation loads. */
  const LOADING_HTML: string :=
    "<html><div style=\"height:100%;width:100%;text-align:center;vertical-align:middle;margin-top:50px;\"><img src=\"icon:///48/hourglass.png\"/></div></html>"

  /** The plugin that provides an operator, reduced to its resource prefix. */
  datatype Provider = Provider(prefix: string)

  datatype OperatorDescription = OperatorDescription(
    provider: Option<Provider>, group: string, keyWithoutPrefix: string, name: string, deprecated: bool)

  /** An operator of the process; id stands for its object identity, which equals compares. */
  datatype Operator = Operator(id: int, description: OperatorDescription)

  /** The documentation root: the core one for an operator without provider, else the provider's
      prefix followed by a slash. */
  function DocumentationRoot(d: OperatorDescription): (r: string)
    ensures d.provider.None? ==> r == "core/"
    ensures d.provider.Some? ==> r == d.provider.value.prefix + "/"
    ensures |r| > 0 && r[|r| - 1] == '/'
  {
    if d.provider.Some? then d.provider.value.prefix + "/" else DOCUMENTATION_ROOT
  }

  /** String.replace(".", "/"): every dot becomes a slash. */
  function DotsToSlashes(s: string): (r: string)
    ensures |r| == |s|
    ensures forall i :: 0 <= i < |s| ==> r[i] == (if s[i] == '.' then '/' else s[i])
  {
    if s == [] then [] else [if s[0] == '.' then '/' else s[0]] + DotsToSlashes(s[1..])
  }

  /** No dot is left after the replacement. */
  lemma NoDotsLeft(s: string)
    ensures '.' !in DotsToSlashes(s)
  {
    var r := DotsToSlashes(s);
    forall i | 0 <= i < |r|
      ensures r[i] != '.'
    {
    }
  }

  /** The path of an operator's documentation file. */
  function ResourcePath(d: OperatorDescription): string
  {
    DocumentationRoot(d) + DotsToSlashes(d.group) + "/" + d.keyWithoutPrefix + ".xml"
  }

  /** The path starts with the root, then holds the group with slashes for dots, then a slash and
      the key, and it ends in ".xml". */
  lemma ResourcePathShape(d: OperatorDescription)
    ensures var p, root, g := ResourcePath(d), DocumentationRoot(d), DotsToSlashes(d.group);
      && p[..|root|] == root
      && p[|root|..|root| + |g|] == g && '.' !in g
      && p[|root| + |g|] == '/'
      && p[|root| + |g| + 1..|p| - 4] == d.keyWithoutPrefix
      && p[|p| - 4..] == ".xml"
  {
    NoDotsLeft(d.group);
    var p, root, g := ResourcePath(d), DocumentationRoot(d), DotsToSlashes(d.group);
    assert p == root + g + "/" + d.keyWithoutPrefix + ".xml";
  }

  /** String.replace(target, replacement): every occurrence of a non-empty target, scanned left
      to right without overlap, is replaced. */
  function ReplaceAll(s: string, target: string, replacement: string): string
    requires |target| > 0
    decreases |s|
  {
    if |s| < |target| then s
    else if s[..|target|] == target then replacement + ReplaceAll(s[|target|..], target, replacement)
    else [s[0]] + ReplaceAll(s[1..], target, replacement)
  }

  /** target occurs in s at position i. */
  predicate OccursAt(s: string, target: string, i: int)
  {
    0 <= i && i + |target| <= |s| && s[i..i + |target|] == target
  }

  /** A text without an occurrence of the target is left unchanged. */
  lemma {:induction false} ReplaceAllWithoutTarget(s: string, target: string, replacement: string)
    requires |target| > 0
    requires forall i :: 0 <= i <= |s| - |target| ==> !OccursAt(s, target, i)
    ensures ReplaceAll(s, target, replacement) == s
    decreases |s|
  {
    if |s| >= |target| {
      assert !OccursAt(s, target, 0);
      forall i | 0 <= i <= |s[1..]| - |target|
        ensures !OccursAt(s[1..], target, i)
      {
        assert !OccursAt(s, target, i + 1);
        assert s[1..][i..i + |target|] == s[i + 1..i + 1 + |target|];
      }
      ReplaceAllWithoutTarget(s[1..], target, replacement);
      assert s == [s[0]] + s[1..];
    }
  }

  /** The html the view shows for converted documentation: the namespace attribute replaced by
      a space, wrapped once in an html element. */
  function RenderHtml(converted: string): (r: string)
    ensures |r| == |ReplaceAll(converted, RMDOC_XMLNS, " ")| + 13
    ensures r[..6] == "<html>" && r[|r| - 7..] == "</html>"
    ensures r[6..|r| - 7] == ReplaceAll(converted, RMDOC_XMLNS, " ")
  {
    "<html>" + ReplaceAll(converted, RMDOC_XMLNS, " ") + "</html>"
  }

  /** One pass of the replacement does not remove every occurrence of the attribute: when the
      attribute is followed by itself without its leading space, the space put in its place
      completes a new one. */
  lemma AttributeCanSurvive()
    ensures OccursAt(ReplaceAll(RMDOC_XMLNS + RMDOC_NAMESPACE, RMDOC_XMLNS, " "), RMDOC_XMLNS, 0)
  {
    var s := RMDOC_XMLNS + RMDOC_NAMESPACE;
    var n := |RMDOC_XMLNS|;
    assert s[..n] == RMDOC_XMLNS;
    assert s[n..] == RMDOC_NAMESPACE;
    ReplaceAllWithoutTarget(RMDOC_NAMESPACE, RMDOC_XMLNS, " ");
    var r := ReplaceAll(s, RMDOC_XMLNS, " ");
    assert r == RMDOC_XMLNS;
    assert r[0..n] == r;
  }

  /** A child node of a tutorial element, reduced to its name and its own id. */
  datatype XmlNode = XmlNode(name: string, id: int)

  /** The position of the last child named process, if any. */
  function LastProcess(children: seq<XmlNode>): (r: Option<nat>)
    ensures r.None? <==> forall i :: 0 <= i < |children| ==> children[i].name != "process"
    ensures r.Some? ==> (r.value < |children| && children[r.value].name == "process" &&
      forall j :: r.value < j < |children| ==> children[j].name != "process")
    decreases |children|
  {
    if children == [] then None
    else if children[|children| - 1].name == "process" then Some(|children| - 1)
    else LastProcess(children[..|children| - 1])
  }

  /** Why following a tutorial link can fail: nodeList.item(index - 1) is null for an index
      outside the tutorial list, and the child loop then dereferences it. */
  datatype LinkError = NoSuchTutorial

  /** The loop of the tutorial link handler: the (index - 1)-th tutorial element is taken, and
      the last of its children named process is kept (null when it has none). */
  method SelectTutorialProcess(tutorials: seq<seq<XmlNode>>, index: int) returns (r: Result<Option<XmlNode>, LinkError>)
    ensures !(1 <= index <= |tutorials|) ==> r == Failure(NoSuchTutorial)
    ensures 1 <= index <= |tutorials| ==>
      var children := tutorials[index - 1];
      r.Success? && (r.value.None? <==> LastProcess(children).None?) &&
      (r.value.Some? ==> LastProcess(children).Some? && r.value.value == children[LastProcess(children).value])
  {
    if !(0 <= index - 1 < |tutorials|) {
      return Failure(NoSuchTutorial);
    }
    var processNode := tutorials[index - 1];
    var process: Option<XmlNode> := None;
    var i := 0;
    while i < |processNode|
      invariant 0 <= i <= |processNode|
      invariant LastProcess(processNode[..i]).None? ==> process.None?
      invariant LastProcess(processNode[..i]).Some? ==>
        LastProcess(processNode[..i]).value < i && process == Some(processNode[LastProcess(processNode[..i]).value])
    {
      assert processNode[..i + 1][..i] == processNode[..i];
      if processNode[i].name == "process" {
        process := Some(processNode[i]);
      }
      i := i + 1;
    }
    assert processNode[..i] == processNode;
    return Success(process);
  }

  /** The state of the view: the operator shown, the URL of its documentation file, whether
      selections are ignored, and the text of the editor. */
  class OperatorDocumentationBrowser {
    var displayedOperator: Option<Operator>
    var currentResourceURL: Option<string>
    var ignoreSelections: bool
    var editorText: string
    /** The class loader's getResource. */
    const getResource: string -> Option<string>

    constructor (getResource: string -> Option<string>)
      ensures displayedOperator.None? && currentResourceURL.None? && !ignoreSelections
      ensures editorText == "<html>-</html>" && this.getResource == getResource
    {
      displayedOperator := None;
      currentResourceURL := None;
      ignoreSelections := false;
      editorText := "<html>-</html>";
      this.getResource := getResource;
    }

    /** assignDocumentation: looks up the documentation file of the displayed operator, shows the
        loading page and remembers the URL. */
    method AssignDocumentation()
      requires displayedOperator.Some?
      modifies this`currentResourceURL, this`editorText
      ensures currentResourceURL == getResource(ResourcePath(displayedOperator.value.description))
      ensures editorText == LOADING_HTML
    {
      var d := displayedOperator.value.description;
      var opDescXMLResourcePath := DocumentationRoot(d) + DotsToSlashes(d.group) + "/" + d.keyWithoutPrefix + ".xml";
      var resourceURL := getResource(opDescXMLResourcePath);
      editorText := LOADING_HTML;
      currentResourceURL := resourceURL;
    }

    /** The end of the background job of changeDocumentation: the converted html is shown. */
    method ShowDocumentation(converted: string)
      modifies this`editorText
      ensures editorText == RenderHtml(converted)
    {
      var html := ReplaceAll(converted, RMDOC_XMLNS, " ");
      editorText := "<html>" + html + "</html>";
    }

    /** setSelection: an empty selection is the list's IndexOutOfBoundsException; otherwise the
        first selected operator is shown if it is not the one shown and selections are not being
        ignored, and nothing changes otherwise. */
    method SetSelection(selection: seq<Operator>) returns (r: Outcome<string>)
      modifies this`displayedOperator, this`currentResourceURL, this`editorText
      ensures selection == [] ==> r.Fail? && unchanged(this)
      ensures selection != [] && (Some(selection[0]) == old(displayedOperator) || ignoreSelections) ==>
        r == Pass && unchanged(this)
      ensures selection != [] && Some(selection[0]) != old(displayedOperator) && !ignoreSelections ==>
        && r == Pass
        && displayedOperator == Some(selection[0])
        && currentResourceURL == getResource(ResourcePath(selection[0].description))
        && editorText == LOADING_HTML
    {
      if selection == [] {
        return Fail("IndexOutOfBoundsException");
      }
      if Some(selection[0]) != displayedOperator && !ignoreSelections {
        displayedOperator := Some(selection[0]);
        AssignDocumentation();
      }
      return Pass;
    }

    /** setDisplayedOperator: a non-null operator that is not deprecated is shown when nothing is
        shown yet or its name differs from the shown one's; otherwise nothing changes. */
    method SetDisplayedOperator(operator: Option<Operator>)
      modifies this`displayedOperator, this`currentResourceURL, this`editorText
      ensures Changes(operator, old(displayedOperator)) ==>
        && displayedOperator == operator
        && currentResourceURL == getResource(ResourcePath(operator.value.description))
        && editorText == LOADING_HTML
      ensures !Changes(operator, old(displayedOperator)) ==> unchanged(this)
    {
      if operator.Some? && !operator.value.description.deprecated &&
         (displayedOperator.None? ||
          (displayedOperator.Some? && operator.value.description.name != displayedOperator.value.description.name)) {
        displayedOperator := operator;
        AssignDocumentation();
      }
    }
  }

  /** When setDisplayedOperator switches to an operator. */
  predicate Changes(operator: Option<Operator>, displayed: Option<Operator>)
  {
    operator.Some? && !operator.value.description.deprecated &&
    (displayed.None? || operator.value.description.name != displayed.value.description.name)
  }

  /** Offering again the operator just shown, or any operator of the same name, changes nothing. */
  lemma SameNameKeepsDisplay(operator: Operator, displayed: Operator)
    requires operator.description.name == displayed.description.name
    ensures !Changes(Some(operator), Some(displayed))
  {
  }
}
