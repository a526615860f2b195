/** The replace(text, what, by) function of the expression parser: a postfix command that pops
    its three arguments off the evaluation stack and pushes the text with every match of the
    regular expression what replaced by by. */
module ReplaceRegex {
  import opened Wrappers

  /** A value on the evaluation stack: a string, the unknown nominal marker (compared by
      identity in the parser), or any other object, such as a number. */
  datatype Value = Str(s: string) | UnknownNominal | Other(tag: int)

  /** The exceptions run can end with: the three ParseExceptions it throws, the
      EmptyStackException of popping an exhausted stack, and the exception of a bad replacement
      string, which run lets through. */
  datatype EvalError = InvalidArgumentType | EmptyTarget | BadPattern | EmptyStack | BadReplacement

  /** What String.replaceAll(regex, replacement) does to a text: the result, the
      PatternSyntaxException of an invalid expression, or the IllegalArgumentException or
      IndexOutOfBoundsException of a replacement string that names a missing group or ends in a
      backslash. */
  datatype Replacement = Replaced(result: string) | InvalidExpression | InvalidReplacement

  /** String.replaceAll applied to (text, regex, replacement). The regular expression engine is
      not part of this model. */
  type Replacer = (string, string, string) -> Replacement

  /** The evaluation stack, its top at the end of the sequence. */
  class OperandStack {
    var elements: seq<Value>

    constructor (elements: seq<Value>)
      ensures this.elements == elements
    {
      this.elements := elements;
    }

    method Pop() returns (r: Result<Value, EvalError>)
      modifies this
      ensures old(elements) == [] ==> r == Failure(EmptyStack) && elements == []
      ensures old(elements) != [] ==>
        r == Success(old(elements)[|old(elements)| - 1]) && elements == old(elements)[..|old(elements)| - 1]
    {
      if elements == [] {
        return Failure(EmptyStack);
      }
      r := Success(elements[|elements| - 1]);
      elements := elements[..|elements| - 1];
    }

    method Push(v: Value)
      modifies this
      ensures elements == old(elements) + [v]
    {
      elements := elements + [v];
    }
  }

  /** What run pushes, or the exception it throws, once the three arguments are popped: the
      unknown marker wins over every other check, then the types are checked, then the target
      must be non-empty; an invalid expression becomes a parse error, and a bad replacement
      string escapes as it is. */
  function Apply(text: Value, what: Value, replacement: Value, replaceAll: Replacer): (r: Result<Value, EvalError>)
    ensures r.Success? ==> r.value.UnknownNominal? || r.value.Str?
  {
    if text == UnknownNominal || what == UnknownNominal || replacement == UnknownNominal then Success(UnknownNominal)
    else if !text.Str? || !replacement.Str? || !what.Str? then Failure(InvalidArgumentType)
    else if |what.s| == 0 then Failure(EmptyTarget)
    else match replaceAll(text.s, what.s, replacement.s)
      case InvalidExpression => Failure(BadPattern)
      case InvalidReplacement => Failure(BadReplacement)
      case Replaced(result) => Success(Str(result))
  }

  /** An unknown argument in any position yields the unknown marker, whatever the others are. */
  lemma UnknownPropagates(text: Value, what: Value, replacement: Value, replaceAll: Replacer)
    requires text == UnknownNominal || what == UnknownNominal || replacement == UnknownNominal
    ensures Apply(text, what, replacement, replaceAll) == Success(UnknownNominal)
  {
  }

  /** The command succeeds exactly when an argument is unknown, or all three are strings, the
      target is non-empty and the expression is valid; a string result is then the replacement. */
  lemma ApplySucceedsIff(text: Value, what: Value, replacement: Value, replaceAll: Replacer)
    ensures Apply(text, what, replacement, replaceAll).Success? <==>
      || (text == UnknownNominal || what == UnknownNominal || replacement == UnknownNominal)
      || (text.Str? && what.Str? && replacement.Str? && what.s != [] && replaceAll(text.s, what.s, replacement.s).Replaced?)
    ensures text.Str? && what.Str? && replacement.Str? && Apply(text, what, replacement, replaceAll).Success? ==>
      Apply(text, what, replacement, replaceAll) == Success(Str(replaceAll(text.s, what.s, replacement.s).result))
  {
  }

  /** Each failure has its own cause: a non-string known argument is a type error, an empty
      target an error of its own, a pattern error only comes from the expression and the
      escaping exception only from the replacement string. */
  lemma ApplyFailures(text: Value, what: Value, replacement: Value, replaceAll: Replacer)
    requires text != UnknownNominal && what != UnknownNominal && replacement != UnknownNominal
    ensures !(text.Str? && what.Str? && replacement.Str?) <==> Apply(text, what, replacement, replaceAll) == Failure(InvalidArgumentType)
    ensures text.Str? && what.Str? && replacement.Str? ==>
      (what.s == [] <==> Apply(text, what, replacement, replaceAll) == Failure(EmptyTarget))
    ensures Apply(text, what, replacement, replaceAll) == Failure(BadPattern) <==>
      text.Str? && what.Str? && replacement.Str? && what.s != [] && replaceAll(text.s, what.s, replacement.s).InvalidExpression?
    ensures Apply(text, what, replacement, replaceAll) == Failure(BadReplacement) <==>
      text.Str? && what.Str? && replacement.Str? && what.s != [] && replaceAll(text.s, what.s, replacement.s).InvalidReplacement?
  {
  }

  class ReplaceRegexCommand {
    const numberOfParameters: int
    const replaceAll: Replacer

    constructor (replaceAll: Replacer)
      ensures numberOfParameters == 3 && this.replaceAll == replaceAll
    {
      numberOfParameters := 3;
      this.replaceAll := replaceAll;
    }

    /** run(stack): pops by, what and text in that order; a stack that runs out loses what was
        popped before it did. On success the three arguments are replaced by one result and
        everything below them is left as it was; on any other failure the arguments are gone. */
    method Run(stack: OperandStack) returns (r: Outcome<EvalError>)
      modifies stack
      ensures |old(stack.elements)| < 3 ==> r == Fail(EmptyStack) && stack.elements == []
      ensures |old(stack.elements)| >= 3 ==>
        var n := |old(stack.elements)|;
        var below := old(stack.elements)[..n - 3];
        var result := Apply(old(stack.elements)[n - 3], old(stack.elements)[n - 2], old(stack.elements)[n - 1], replaceAll);
        && (result.Success? ==> r == Pass && stack.elements == below + [result.value])
        && (result.Failure? ==> r == Fail(result.error) && stack.elements == below)
    {
      var byPopped := stack.Pop();
      if byPopped.Failure? {
        return Fail(byPopped.error);
      }
      var whatPopped := stack.Pop();
      if whatPopped.Failure? {
        return Fail(whatPopped.error);
      }
      var textPopped := stack.Pop();
      if textPopped.Failure? {
        return Fail(textPopped.error);
      }
      var byObject, whatObject, textObject := byPopped.value, whatPopped.value, textPopped.value;
      if textObject == UnknownNominal || whatObject == UnknownNominal || byObject == UnknownNominal {
        stack.Push(UnknownNominal);
        return Pass;
      }
      if !textObject.Str? || !byObject.Str? || !whatObject.Str? {
        return Fail(InvalidArgumentType);
      }
      if |whatObject.s| == 0 {
        return Fail(EmptyTarget);
      }
      var replaced := replaceAll(textObject.s, whatObject.s, byObject.s);
      if replaced.InvalidExpression? {
        return Fail(BadPattern);
      }
      if replaced.InvalidReplacement? {
        return Fail(BadReplacement);
      }
      stack.Push(Str(replaced.result));
      return Pass;
    }
  }
}
