/** The style provider of the plotter: an ordered list of colour schemes whose first entries
    are protected defaults, the index of the selected scheme, and three fonts. */
module PlotterStyle {
  import opened Wrappers
  import opened Lists

  datatype ColorRGB = ColorRGB(r: int, g: int, b: int)

  /** A colour scheme. List.contains and List.indexOf compare schemes with equals, which this
      model takes to be equality of name and colours. */
  datatype ColorScheme = ColorScheme(name: string, colors: seq<ColorRGB>)

  /** A java.awt.Font, reduced to what the provider stores. */
  datatype Font = Font(name: string, style: int, size: int)

  /** Font.PLAIN */
  const PLAIN: int := 0

  /** Each IllegalArgumentException the provider throws, and the IndexOutOfBoundsException of
      the list it uses. */
  datatype StyleError =
    | NullArgument
    | IndexOutOfRange
    | BeforeDefaults
    | DuplicateScheme
    | NegativeIndex
    | DefaultScheme
    | IndexOutOfBounds

  function Colorful(): ColorScheme
  {
    ColorScheme("Colorful", [ColorRGB(222, 217, 26), ColorRGB(219, 138, 47), ColorRGB(217, 26, 21),
                             ColorRGB(83, 70, 255), ColorRGB(156, 217, 84)])
  }

  function Forest(): ColorScheme
  {
    ColorScheme("Forest", [ColorRGB(94, 173, 0), ColorRGB(255, 188, 10), ColorRGB(189, 39, 53),
                           ColorRGB(255, 119, 0), ColorRGB(81, 17, 84)])
  }

  function DefaultFont(): Font
  {
    Font("Dialog", PLAIN, 10)
  }

  /** Inserting a scheme that is not in the list, at or after the default prefix, keeps the
      prefix and the absence of duplicates. */
  lemma InsertKeepsInvariant(defaults: seq<ColorScheme>, s: seq<ColorScheme>, i: int, x: ColorScheme)
    requires defaults <= s && NoDuplicates(s) && x !in s
    requires |defaults| <= i <= |s|
    ensures defaults <= InsertAt(s, i, x) && NoDuplicates(InsertAt(s, i, x))
  {
    var r := InsertAt(s, i, x);
    assert r[..|defaults|] == s[..i][..|defaults|];
    forall a, b | 0 <= a < b < |r|
      ensures r[a] != r[b]
    {
      if a < i && b > i {
        assert r[a] == s[a] && r[b] == s[b - 1];
      } else if b < i {
        assert r[a] == s[a] && r[b] == s[b];
      } else if a > i {
        assert r[a] == s[a - 1] && r[b] == s[b - 1];
      } else if a == i {
        assert r[b] == s[b - 1];
      } else {
        assert r[a] == s[a];
      }
    }
  }

  /** Removing an entry after the default prefix keeps the prefix and the absence of duplicates. */
  lemma RemoveKeepsInvariant(defaults: seq<ColorScheme>, s: seq<ColorScheme>, i: int)
    requires defaults <= s && NoDuplicates(s)
    requires |defaults| <= i < |s|
    ensures defaults <= RemoveAt(s, i) && NoDuplicates(RemoveAt(s, i))
  {
    var r := RemoveAt(s, i);
    assert r[..|defaults|] == s[..i][..|defaults|];
    forall a, b | 0 <= a < b < |r|
      ensures r[a] != r[b]
    {
      if b < i {
        assert r[a] == s[a] && r[b] == s[b];
      } else if a < i {
        assert r[a] == s[a] && r[b] == s[b + 1];
      } else {
        assert r[a] == s[a + 1] && r[b] == s[b + 1];
      }
    }
  }

  class DefaultPlotterStyleProvider {
    var schemes: seq<ColorScheme>
    const defaults: seq<ColorScheme>
    var selectedIndex: int
    var axesFont: Font
    var legendFont: Font
    var titleFont: Font

    /** The defaults stay the prefix of the list, the list holds no scheme twice, and the
        selected index is never negative. */
    ghost predicate Valid()
      reads this
    {
      defaults <= schemes && NoDuplicates(schemes) && selectedIndex >= 0
    }

    constructor ()
      ensures Valid()
      ensures schemes == [Colorful(), Forest()] && defaults == schemes && selectedIndex == 0
      ensures axesFont == DefaultFont() && legendFont == DefaultFont() && titleFont == DefaultFont()
    {
      schemes := [Colorful(), Forest()];
      defaults := [Colorful(), Forest()];
      selectedIndex := 0;
      axesFont := DefaultFont();
      legendFont := DefaultFont();
      titleFont := DefaultFont();
    }

    method SetAxesFont(font: Option<Font>) returns (r: Outcome<StyleError>)
      modifies this`axesFont
      ensures font.None? ==> r == Fail(NullArgument) && axesFont == old(axesFont)
      ensures font.Some? ==> r == Pass && axesFont == font.value
    {
      if font.None? {
        return Fail(NullArgument);
      }
      axesFont := font.value;
      return Pass;
    }

    method SetLegendFont(font: Option<Font>) returns (r: Outcome<StyleError>)
      modifies this`legendFont
      ensures font.None? ==> r == Fail(NullArgument) && legendFont == old(legendFont)
      ensures font.Some? ==> r == Pass && legendFont == font.value
    {
      if font.None? {
        return Fail(NullArgument);
      }
      legendFont := font.value;
      return Pass;
    }

    method SetTitleFont(font: Option<Font>) returns (r: Outcome<StyleError>)
      modifies this`titleFont
      ensures font.None? ==> r == Fail(NullArgument) && titleFont == old(titleFont)
      ensures font.Some? ==> r == Pass && titleFont == font.value
    {
      if font.None? {
        return Fail(NullArgument);
      }
      titleFont := font.value;
      return Pass;
    }

    method SetSelectedColorSchemeIndex(index: int) returns (r: Outcome<StyleError>)
      requires Valid()
      modifies this`selectedIndex
      ensures Valid()
      ensures (index < 0 || index >= |schemes|) ==> r == Fail(IndexOutOfRange) && selectedIndex == old(selectedIndex)
      ensures 0 <= index < |schemes| ==> r == Pass && selectedIndex == index
    {
      if index < 0 || index >= |schemes| {
        return Fail(IndexOutOfRange);
      }
      selectedIndex := index;
      return Pass;
    }

    /** Selects the scheme, appending it first when it is not in the list. */
    method SetSelectedColorScheme(scheme: Option<ColorScheme>) returns (r: Outcome<StyleError>)
      requires Valid()
      modifies this`schemes, this`selectedIndex
      ensures Valid()
      ensures scheme.None? ==> r == Fail(NullArgument) && schemes == old(schemes) && selectedIndex == old(selectedIndex)
      ensures scheme.Some? ==>
        && r == Pass
        && (scheme.value in old(schemes) ==> schemes == old(schemes))
        && (scheme.value !in old(schemes) ==> schemes == old(schemes) + [scheme.value])
        && selectedIndex == IndexOf(schemes, scheme.value)
        && GetColorScheme() == Success(scheme.value)
    {
      if scheme.None? {
        return Fail(NullArgument);
      }
      if scheme.value !in schemes {
        var added := AddColorScheme(scheme);
      }
      r := SetSelectedColorSchemeIndex(IndexOf(schemes, scheme.value));
    }

    /** getColorSchemes: a copy of the list; being a value, later changes to the provider do
        not show in it. It starts with the defaults and holds no scheme twice. */
    function GetColorSchemes(): (r: seq<ColorScheme>)
      reads this
      ensures r == schemes
      ensures Valid() ==> defaults <= r && NoDuplicates(r) && |defaults| <= |r|
    {
      schemes
    }

    /** addColorScheme(cs): inserts at the end of the list. */
    method AddColorScheme(scheme: Option<ColorScheme>) returns (r: Outcome<StyleError>)
      requires Valid()
      modifies this`schemes
      ensures Valid()
      ensures scheme.None? ==> r == Fail(NullArgument) && schemes == old(schemes)
      ensures scheme.Some? && scheme.value in old(schemes) ==> r == Fail(DuplicateScheme) && schemes == old(schemes)
      ensures scheme.Some? && scheme.value !in old(schemes) ==> r == Pass && schemes == old(schemes) + [scheme.value]
    {
      r := AddColorSchemeAt(scheme, |schemes|);
    }

    /** addColorScheme(cs, index): null, an index inside the default prefix and a duplicate are
        rejected in that order; an index past the end inserts at the end. */
    method AddColorSchemeAt(scheme: Option<ColorScheme>, index: int) returns (r: Outcome<StyleError>)
      requires Valid()
      modifies this`schemes
      ensures Valid()
      ensures scheme.None? ==> r == Fail(NullArgument)
      ensures scheme.Some? && index < |defaults| ==> r == Fail(BeforeDefaults)
      ensures scheme.Some? && index >= |defaults| && scheme.value in old(schemes) ==> r == Fail(DuplicateScheme)
      ensures r.Fail? ==> schemes == old(schemes)
      ensures scheme.Some? && index >= |defaults| && scheme.value !in old(schemes) ==>
        r == Pass && schemes == InsertAt(old(schemes), if index < |old(schemes)| then index else |old(schemes)|, scheme.value)
    {
      if scheme.None? {
        return Fail(NullArgument);
      }
      if index < |defaults| {
        return Fail(BeforeDefaults);
      }
      var at := if |schemes| < index then |schemes| else index;
      if scheme.value in schemes {
        return Fail(DuplicateScheme);
      }
      InsertKeepsInvariant(defaults, schemes, at, scheme.value);
      schemes := InsertAt(schemes, at, scheme.value);
      return Pass;
    }

    /** removeColorScheme(int): the selected index is left as it is. */
    method RemoveColorSchemeAt(index: int) returns (r: Outcome<StyleError>)
      requires Valid()
      modifies this`schemes
      ensures Valid()
      ensures index < 0 ==> r == Fail(NegativeIndex)
      ensures 0 <= index < |defaults| ==> r == Fail(DefaultScheme)
      ensures |defaults| <= index && index >= |old(schemes)| ==> r == Fail(IndexOutOfBounds)
      ensures r.Fail? ==> schemes == old(schemes)
      ensures |defaults| <= index < |old(schemes)| ==> r == Pass && schemes == RemoveAt(old(schemes), index)
    {
      if index < 0 {
        return Fail(NegativeIndex);
      }
      if index < |defaults| {
        return Fail(DefaultScheme);
      }
      if index >= |schemes| {
        return Fail(IndexOutOfBounds);
      }
      RemoveKeepsInvariant(defaults, schemes, index);
      schemes := RemoveAt(schemes, index);
      return Pass;
    }

    /** removeColorScheme(cs): a default is rejected; otherwise the scheme is dropped if present
        (null matches nothing). The selected index is left as it is. */
    method RemoveColorScheme(scheme: Option<ColorScheme>) returns (r: Outcome<StyleError>)
      requires Valid()
      modifies this`schemes
      ensures Valid()
      ensures scheme.Some? && scheme.value in defaults ==> r == Fail(DefaultScheme) && schemes == old(schemes)
      ensures scheme.None? ==> r == Pass && schemes == old(schemes)
      ensures scheme.Some? && scheme.value !in defaults ==> r == Pass && schemes == RemoveFirst(old(schemes), scheme.value)
      ensures scheme.Some? && scheme.value !in defaults ==> scheme.value !in schemes
    {
      if scheme.Some? && scheme.value in defaults {
        return Fail(DefaultScheme);
      }
      if scheme.Some? {
        var x := scheme.value;
        if x in schemes {
          var i := IndexOf(schemes, x);
          assert i >= |defaults|;
          RemoveKeepsInvariant(defaults, schemes, i);
          RemovedIsGone(schemes, i);
        }
        schemes := RemoveFirst(schemes, x);
      }
      return Pass;
    }

    /** getColorScheme: the selected scheme; after a removal the index may point past the end,
        which is the list's IndexOutOfBoundsException. */
    function GetColorScheme(): (r: Result<ColorScheme, StyleError>)
      reads this
      ensures r.Success? <==> 0 <= selectedIndex < |schemes|
      ensures r.Success? ==> r.value == schemes[selectedIndex]
    {
      if 0 <= selectedIndex < |schemes| then Success(schemes[selectedIndex]) else Failure(IndexOutOfBounds)
    }
  }
}
