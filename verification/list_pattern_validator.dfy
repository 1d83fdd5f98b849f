/**
 * The `@ListPattern` constraint and its validator (util/ListPatternValidator.kt):
 * a list is valid when it is present, a regex was configured, and every element
 * matches it. The regex engine itself (`String.matches`) is a parameter.
 */
module ListPatternValidators {
  import opened Wrappers

  /** `@ListPattern(regex, message)`; `regex` defaults to the empty pattern. */
  datatype ListPattern = ListPattern(regex: string, message: string)

  /** A compiled regular expression (`String.toRegex()`). */
  datatype Regex = Regex(pattern: string)

  /** How `initialize` ends: normally, or with the exception `toRegex()` throws on a bad pattern. */
  datatype Compilation = Compiled | PatternSyntaxException(pattern: string)

  /** Every element of `values` matches `regex` under the engine `matches`. */
  predicate AllMatch(values: seq<string>, regex: Regex, matches: (string, Regex) -> bool) {
    forall i | 0 <= i < |values| :: matches(values[i], regex)
  }

  class ListPatternValidator {
    var annotation: Option<ListPattern>
    var regex: Option<Regex>

    /** A fresh validator: neither field set. */
    constructor ()
      ensures annotation == None && regex == None
    {
      annotation := None;
      regex := None;
    }

    /**
     * `initialize(constraintAnnotation)`: compiles the annotation's regex when an
     * annotation is given; a null annotation leaves the validator as it was. A
     * pattern the engine cannot compile (`compiles` false) makes `toRegex()` throw
     * `PatternSyntaxException` before `regex` is assigned, so the field keeps its
     * old value. The `annotation` field is never assigned.
     */
    method Initialize(constraintAnnotation: Option<ListPattern>, compiles: string -> bool) returns (outcome: Compilation)
      modifies this
      ensures annotation == old(annotation)
      ensures outcome.PatternSyntaxException? <==> constraintAnnotation.Some? && !compiles(constraintAnnotation.value.regex)
      ensures outcome.PatternSyntaxException? ==> outcome.pattern == constraintAnnotation.value.regex
      ensures outcome.Compiled? && constraintAnnotation.Some? ==> regex == Some(Regex(constraintAnnotation.value.regex))
      ensures outcome.PatternSyntaxException? || constraintAnnotation.None? ==> regex == old(regex)
    {
      outcome := Compiled;
      if constraintAnnotation.Some? {
        var pattern := constraintAnnotation.value.regex;
        if !compiles(pattern) {
          return PatternSyntaxException(pattern);
        }
        regex := Some(Regex(pattern));
      }
    }

    /**
     * `isValid(value, context)`: false for a null list or when no regex was set;
     * otherwise true exactly when every element matches, so the empty list is valid.
     * The scan stops at the first element that does not match.
     */
    method IsValid(value: Option<seq<string>>, matches: (string, Regex) -> bool) returns (valid: bool)
      ensures valid <==> value.Some? && regex.Some? && AllMatch(value.value, regex.value, matches)
    {
      if value.None? || regex.None? {
        return false;
      }
      var values := value.value;
      var i := 0;
      while i < |values|
        invariant 0 <= i <= |values|
        invariant forall j | 0 <= j < i :: matches(values[j], regex.value)
      {
        if !matches(values[i], regex.value) {
          return false;
        }
        i := i + 1;
      }
      return true;
    }
  }

  /** A validator that was never given an annotation rejects every input, even the empty list. */
  method UninitializedRejectsAll(value: Option<seq<string>>, matches: (string, Regex) -> bool) returns (valid: bool)
    ensures !valid
  {
    var v := new ListPatternValidator();
    valid := v.IsValid(value, matches);
  }

  /**
   * Once initialized with an annotation whose pattern compiles, the empty list
   * is valid whatever the pattern; when the pattern does not compile, the
   * validator keeps no regex and rejects even the empty list.
   */
  method InitializedAcceptsEmpty(pattern: ListPattern, matches: (string, Regex) -> bool, compiles: string -> bool)
    returns (outcome: Compilation, valid: bool)
    ensures outcome.Compiled? <==> compiles(pattern.regex)
    ensures valid <==> compiles(pattern.regex)
  {
    var v := new ListPatternValidator();
    outcome := v.Initialize(Some(pattern), compiles);
    valid := v.IsValid(Some([]), matches);
  }
}
