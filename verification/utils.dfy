/**
 * Secure ids and "contains" filter expressions (util/Utils.kt).
 */
module Utils {
  import opened Base64Url

  /** `createSecureId()` draws this many random bytes by default. */
  const DefaultSecureIdLength: nat := 20

  /**
   * `s.replace(from, to)` for single characters: the text keeps its length and
   * every other character, no `from` survives a replacement by something else,
   * and a text without `from` is returned unchanged.
   */
  function ReplaceChar(s: string, from: char, to: char): (r: string)
    ensures |r| == |s|
    ensures forall i | 0 <= i < |s| && s[i] != from :: r[i] == s[i]
    ensures from != to ==> from !in r
    ensures from !in s ==> r == s
  {
    seq(|s|, i requires 0 <= i < |s| => if s[i] == from then to else s[i])
  }

  /** Replacing a second time changes nothing more. */
  lemma ReplaceCharIdempotent(s: string, from: char, to: char)
    ensures ReplaceChar(ReplaceChar(s, from, to), from, to) == ReplaceChar(s, from, to)
  {
    var r := ReplaceChar(s, from, to);
    if from != to {
      assert from !in r;
    } else {
      assert forall i | 0 <= i < |r| :: r[i] == s[i];
    }
  }

  /**
   * `createSecureId(length)` where the secure random generator produced
   * `randomBytes` (so `length == |randomBytes|`): the URL-safe Base64 text of the
   * bytes with '+', '/' and '=' each replaced by '_'.
   */
  function CreateSecureId(randomBytes: seq<byte>): string {
    ReplaceChar(ReplaceChar(ReplaceChar(Encode(randomBytes), '+', '_'), '/', '_'), '=', '_')
  }

  /**
   * The id never contains '+', '/' or '='; it is exactly as long as the Base64
   * text; every other character of that text is kept in place, and each '=' of
   * the padding turns into '_'.
   */
  lemma SecureIdShape(randomBytes: seq<byte>)
    ensures var id := CreateSecureId(randomBytes); var text := Encode(randomBytes);
      && |id| == |text| == 4 * ((|randomBytes| + 2) / 3)
      && (forall i | 0 <= i < |id| :: id[i] != '+' && id[i] != '/' && id[i] != '=')
      && (forall i | 0 <= i < |id| :: text[i] != '=' ==> id[i] == text[i])
      && (forall i | 0 <= i < |id| :: text[i] == '=' ==> id[i] == '_')
  {
  }

  /**
   * As the URL-safe text never holds '+' or '/', the first two replacements
   * change nothing: only the padding is rewritten.
   */
  lemma OnlyPaddingIsReplaced(randomBytes: seq<byte>)
    ensures ReplaceChar(ReplaceChar(Encode(randomBytes), '+', '_'), '/', '_') == Encode(randomBytes)
    ensures CreateSecureId(randomBytes) == ReplaceChar(Encode(randomBytes), '=', '_')
  {
    var text := Encode(randomBytes);
    assert ReplaceChar(text, '+', '_') == text;
    assert ReplaceChar(text, '/', '_') == text;
  }

  /** With the default 20 bytes the id has 28 characters, the last one a replaced pad. */
  lemma DefaultSecureIdLengthIs28(randomBytes: seq<byte>)
    requires |randomBytes| == DefaultSecureIdLength
    ensures |CreateSecureId(randomBytes)| == 28
    ensures CreateSecureId(randomBytes)[27] == '_'
  {
    assert Encode(randomBytes)[27] == '=';
  }

  // ---------------------------------------------------------------------------
  // Filter expressions

  /** DynamoDB's `ConditionalOperator`, joined into the expression by its name. */
  datatype ConditionalOperator = AND | OR

  function OperatorName(op: ConditionalOperator): string {
    match op
    case AND => "AND"
    case OR => "OR"
  }

  /** The decimal digit character for `d`. */
  function DigitChar(d: int): (c: char)
    requires 0 <= d < 10
    ensures '0' <= c <= '9'
  {
    ('0' as int + d) as char
  }

  /** Kotlin's string template of a non-negative `Int`: its decimal digits. */
  function NatToString(n: nat): (s: string)
    ensures 1 <= |s|
    ensures forall i | 0 <= i < |s| :: '0' <= s[i] <= '9'
    ensures n >= 10 <==> |s| >= 2
    decreases n
  {
    if n < 10 then [DigitChar(n)] else NatToString(n / 10) + [DigitChar(n % 10)]
  }

  /** Distinct numbers have distinct decimal texts. */
  lemma {:induction false} NatToStringInjective(a: nat, b: nat)
    requires NatToString(a) == NatToString(b)
    ensures a == b
    decreases a
  {
    var sa, sb := NatToString(a), NatToString(b);
    if a >= 10 {
      assert b >= 10;
      assert sa[|sa| - 1] == DigitChar(a % 10) && sb[|sb| - 1] == DigitChar(b % 10);
      assert sa[..|sa| - 1] == NatToString(a / 10);
      assert sb[..|sb| - 1] == NatToString(b / 10);
      NatToStringInjective(a / 10, b / 10);
    }
  }

  /** The `i`-th clause: "contains(<attribute>, <placeholder><i>)". */
  function Clause(attributeName: string, attributePlaceholder: string, i: nat): string {
    "contains(" + attributeName + ", " + attributePlaceholder + NatToString(i) + ")"
  }

  /** `joinToString(separator)`. */
  function JoinToString(parts: seq<string>, separator: string): string
    decreases |parts|
  {
    if |parts| == 0 then ""
    else if |parts| == 1 then parts[0]
    else parts[0] + separator + JoinToString(parts[1..], separator)
  }

  /** Total length of a list of strings. */
  function TotalLength(parts: seq<string>): nat
    decreases |parts|
  {
    if |parts| == 0 then 0 else |parts[0]| + TotalLength(parts[1..])
  }

  /** A joined list of n parts holds the parts and exactly n - 1 separators. */
  lemma {:induction false} JoinToStringLength(parts: seq<string>, separator: string)
    requires |parts| >= 1
    ensures |JoinToString(parts, separator)| == TotalLength(parts) + (|parts| - 1) * |separator|
    decreases |parts|
  {
    if |parts| > 1 {
      JoinToStringLength(parts[1..], separator);
    }
  }

  /** `needle` occurs in `haystack` starting at offset `k`. */
  ghost predicate OccursAt(needle: string, haystack: string, k: int) {
    0 <= k <= |haystack| - |needle| && haystack[k..k + |needle|] == needle
  }

  /** `needle` occurs in `haystack` at some offset. */
  ghost predicate Occurs(needle: string, haystack: string) {
    exists k :: OccursAt(needle, haystack, k)
  }

  lemma OccursTransitive(a: string, b: string, c: string)
    requires Occurs(a, b) && Occurs(b, c)
    ensures Occurs(a, c)
  {
    var k1 :| OccursAt(a, b, k1);
    var k2 :| OccursAt(b, c, k2);
    forall j | 0 <= j < |a|
      ensures c[k2 + k1 + j] == a[j]
    {
      assert a[j] == b[k1..k1 + |a|][j] == b[k1 + j];
      assert b[k1 + j] == c[k2..k2 + |b|][k1 + j];
    }
    assert c[k2 + k1..k2 + k1 + |a|] == a;
    assert OccursAt(a, c, k2 + k1);
  }

  /** Every part appears in the joined string. */
  lemma {:induction false} JoinToStringContainsParts(parts: seq<string>, separator: string, i: nat)
    requires i < |parts|
    ensures Occurs(parts[i], JoinToString(parts, separator))
    decreases |parts|
  {
    var joined := JoinToString(parts, separator);
    if i == 0 {
      assert joined[0..|parts[0]|] == parts[0];
      assert OccursAt(parts[0], joined, 0);
    } else {
      var rest := JoinToString(parts[1..], separator);
      JoinToStringContainsParts(parts[1..], separator, i - 1);
      var k :| OccursAt(parts[i], rest, k);
      var off := |parts[0]| + |separator|;
      assert joined == parts[0] + separator + rest;
      assert joined[off + k..off + k + |parts[i]|] == rest[k..k + |parts[i]|];
      assert OccursAt(parts[i], joined, off + k);
    }
  }

  /** The value map: each placeholder + index mapped to the value at that index (`toMap`). */
  function PlaceholderValues(attributePlaceholder: string, values: seq<string>): map<string, string>
    decreases |values|
  {
    if |values| == 0 then map[]
    else
      var n := |values| - 1;
      PlaceholderValues(attributePlaceholder, values[..n])[attributePlaceholder + NatToString(n) := values[n]]
  }

  /** Different indices give different placeholders. */
  lemma PlaceholdersDistinct(attributePlaceholder: string, i: nat, j: nat)
    requires i != j
    ensures attributePlaceholder + NatToString(i) != attributePlaceholder + NatToString(j)
  {
    if attributePlaceholder + NatToString(i) == attributePlaceholder + NatToString(j) {
      var key := attributePlaceholder + NatToString(i);
      assert NatToString(i) == key[|attributePlaceholder|..] == NatToString(j);
      NatToStringInjective(i, j);
    }
  }

  /** The placeholders of the indices below `n`. */
  ghost function Placeholders(attributePlaceholder: string, n: nat): set<string> {
    set i | 0 <= i < n :: attributePlaceholder + NatToString(i)
  }

  lemma PlaceholdersStep(attributePlaceholder: string, n: nat)
    ensures Placeholders(attributePlaceholder, n + 1) == Placeholders(attributePlaceholder, n) + {attributePlaceholder + NatToString(n)}
  {
    var all := Placeholders(attributePlaceholder, n + 1);
    var before := Placeholders(attributePlaceholder, n);
    forall x | x in all
      ensures x in before + {attributePlaceholder + NatToString(n)}
    {
      var i :| 0 <= i < n + 1 && x == attributePlaceholder + NatToString(i);
      if i < n {
        assert x in before;
      }
    }
  }

  /** The keys of the value map are the placeholders of the indices. */
  lemma {:induction false} PlaceholderValuesKeys(attributePlaceholder: string, values: seq<string>)
    ensures PlaceholderValues(attributePlaceholder, values).Keys == Placeholders(attributePlaceholder, |values|)
    decreases |values|
  {
    if |values| > 0 {
      var n := |values| - 1;
      PlaceholderValuesKeys(attributePlaceholder, values[..n]);
      PlaceholdersStep(attributePlaceholder, n);
    }
  }

  /** Placeholder i is bound to the i-th value: no later index overwrites it. */
  lemma {:induction false} PlaceholderValuesAt(attributePlaceholder: string, values: seq<string>, i: nat)
    requires i < |values|
    ensures attributePlaceholder + NatToString(i) in PlaceholderValues(attributePlaceholder, values)
    ensures PlaceholderValues(attributePlaceholder, values)[attributePlaceholder + NatToString(i)] == values[i]
    decreases |values|
  {
    var n := |values| - 1;
    if i < n {
      PlaceholderValuesAt(attributePlaceholder, values[..n], i);
      PlaceholdersDistinct(attributePlaceholder, i, n);
      assert values[..n][i] == values[i];
    }
  }

  /** The value map has as many entries as there are values. */
  lemma {:induction false} PlaceholderValuesSize(attributePlaceholder: string, values: seq<string>)
    ensures |PlaceholderValues(attributePlaceholder, values)| == |values|
    decreases |values|
  {
    if |values| > 0 {
      var n := |values| - 1;
      var prev := PlaceholderValues(attributePlaceholder, values[..n]);
      PlaceholderValuesSize(attributePlaceholder, values[..n]);
      PlaceholderValuesKeys(attributePlaceholder, values[..n]);
      var key := attributePlaceholder + NatToString(n);
      if key in prev {
        var i :| 0 <= i < n && key == attributePlaceholder + NatToString(i);
        PlaceholdersDistinct(attributePlaceholder, i, n);
      }
    }
  }

  /** The clauses for `n` values, in index order. */
  function Clauses(attributeName: string, attributePlaceholder: string, n: nat): (clauses: seq<string>)
    ensures |clauses| == n
  {
    seq(n, i requires 0 <= i < n => Clause(attributeName, attributePlaceholder, i))
  }

  /** The separator between clauses: the operator's name surrounded by spaces. */
  function Separator(operator: ConditionalOperator): string {
    " " + OperatorName(operator) + " "
  }

  /**
   * `createContainsFilterExpression(attributeName, attributePlaceholder, values, operator)`:
   * one "contains" clause per value joined by " <OPERATOR> ", and the value map.
   */
  function CreateContainsFilterExpression(
    attributeName: string, attributePlaceholder: string, values: seq<string>, operator: ConditionalOperator
  ): (string, map<string, string>)
  {
    (JoinToString(Clauses(attributeName, attributePlaceholder, |values|), Separator(operator)),
     PlaceholderValues(attributePlaceholder, values))
  }

  /** For no values the expression is empty and so is the value map. */
  lemma EmptyFilterExpression(attributeName: string, attributePlaceholder: string, operator: ConditionalOperator)
    ensures CreateContainsFilterExpression(attributeName, attributePlaceholder, [], operator) == ("", map[])
  {
  }

  /**
   * For n values the expression holds the n clauses and n - 1 separators, and
   * every placeholder i of the value map appears in it.
   */
  lemma FilterExpressionText(
    attributeName: string, attributePlaceholder: string, values: seq<string>, operator: ConditionalOperator)
    requires |values| >= 1
    ensures var expression := CreateContainsFilterExpression(attributeName, attributePlaceholder, values, operator).0;
      && |expression| == TotalLength(Clauses(attributeName, attributePlaceholder, |values|)) + (|values| - 1) * |Separator(operator)|
      && (forall i | 0 <= i < |values| :: Occurs(Clause(attributeName, attributePlaceholder, i), expression))
      && (forall i | 0 <= i < |values| :: Occurs(attributePlaceholder + NatToString(i), expression))
  {
    var clauses := Clauses(attributeName, attributePlaceholder, |values|);
    var expression := JoinToString(clauses, Separator(operator));
    JoinToStringLength(clauses, Separator(operator));
    forall i | 0 <= i < |values|
      ensures Occurs(Clause(attributeName, attributePlaceholder, i), expression)
      ensures Occurs(attributePlaceholder + NatToString(i), expression)
    {
      var key := attributePlaceholder + NatToString(i);
      var clause := Clause(attributeName, attributePlaceholder, i);
      JoinToStringContainsParts(clauses, Separator(operator), i);
      var off := |"contains("| + |attributeName| + |", "|;
      assert clause[off..off + |key|] == key;
      assert OccursAt(key, clause, off);
      OccursTransitive(key, clause, expression);
    }
  }

  /**
   * The value map binds exactly the placeholders 0..n-1, placeholder i to value i,
   * and each of its keys appears in the expression.
   */
  lemma FilterExpressionValues(
    attributeName: string, attributePlaceholder: string, values: seq<string>, operator: ConditionalOperator)
    ensures var (expression, valueMap) := CreateContainsFilterExpression(attributeName, attributePlaceholder, values, operator);
      && valueMap.Keys == Placeholders(attributePlaceholder, |values|)
      && (forall i | 0 <= i < |values| :: valueMap[attributePlaceholder + NatToString(i)] == values[i])
      && |valueMap| == |values|
      && (forall key | key in valueMap :: Occurs(key, expression))
  {
    PlaceholderValuesKeys(attributePlaceholder, values);
    forall i | 0 <= i < |values|
      ensures PlaceholderValues(attributePlaceholder, values)[attributePlaceholder + NatToString(i)] == values[i]
    {
      PlaceholderValuesAt(attributePlaceholder, values, i);
    }
    PlaceholderValuesSize(attributePlaceholder, values);
    if |values| >= 1 {
      FilterExpressionText(attributeName, attributePlaceholder, values, operator);
    }
  }
}
