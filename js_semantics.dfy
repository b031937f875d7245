/** The pieces of ECMAScript that the user-creation route and the connection-string
    derivation rely on: JSON values as `JSON.parse` yields them, ToBoolean
    (the `!x` tests), the `\s` character class, `String.prototype.startsWith`,
    StringIndexOf and `String.prototype.replace` with a string search value. */
module JsSemantics {

  datatype Option<T> = None | Some(value: T)

  /** A value that is either returned or thrown as `new Error(message)`. */
  datatype Result<T> = Ok(value: T) | Err(message: string)

  /** A JSON value as `JSON.parse` produces it. A number carries the value of the
      double it was parsed to; an object maps each key to the value of its last
      occurrence in the text. */
  datatype Json =
    | JNull
    | JBool(b: bool)
    | JNum(n: real)
    | JStr(s: string)
    | JArr(items: seq<Json>)
    | JObj(fields: map<string, Json>)

  /** ToBoolean (section 7.1.2 of ECMA-262) of `undefined` (None) or of a JSON value.
      The falsy values are exactly undefined, null, false, 0 and the empty string. */
  predicate Truthy(v: Option<Json>)
    ensures !Truthy(v) <==>
      v == None || v == Some(JNull) || v == Some(JBool(false)) || v == Some(JNum(0.0)) || v == Some(JStr(""))
  {
    match v
    case None => false
    case Some(j) =>
      match j
      case JNull => false
      case JBool(b) => b
      case JNum(n) => n != 0.0
      case JStr(s) => s != ""
      case JArr(_) => true
      case JObj(_) => true
  }

  /** The regular-expression class `\s`: WhiteSpace (TAB, VT, FF, ZWNBSP and the
      Unicode category Zs) together with LineTerminator (LF, CR, LS, PS), as
      sections 12.2 and 12.3 of ECMA-262 define them. */
  predicate IsWhitespace(c: char)
    ensures c == ' ' || c == '\t' || c == '\n' || c == '\r' ==> IsWhitespace(c)
    ensures '!' <= c <= '~' ==> !IsWhitespace(c)
  {
    var n := c as int;
    || n == 0x09 || n == 0x0B || n == 0x0C || n == 0xFEFF
    || n == 0x0A || n == 0x0D || n == 0x2028 || n == 0x2029
    || n == 0x20 || n == 0xA0 || n == 0x1680 || 0x2000 <= n <= 0x200A
    || n == 0x202F || n == 0x205F || n == 0x3000
  }

  /** `s.startsWith(p)`: case-sensitive, code unit by code unit. */
  predicate StartsWith(s: string, p: string)
  {
    |p| <= |s| && s[..|p|] == p
  }

  /** `s` starts with `p` exactly when the search for `p` from the start finds
      it at index 0, where `replace` then substitutes it. */
  lemma StartsWithFoundFirst(s: string, p: string)
    ensures StartsWith(s, p) <==> IndexOf(s, p, 0) == 0
  {
  }

  /** A string that starts with `p + q` starts with `p`. */
  lemma StartsWithPrefix(s: string, p: string, q: string)
    requires StartsWith(s, p + q)
    ensures StartsWith(s, p)
  {
  }

  /** `p` occurs in `s` at index `i`. */
  predicate OccursAt(s: string, p: string, i: nat) {
    i + |p| <= |s| && s[i..i + |p|] == p
  }

  /** StringIndexOf(s, p, from) of ECMA-262: the first index at or after `from`
      where `p` occurs in `s`, or -1 when there is none. */
  function IndexOf(s: string, p: string, from: nat): (r: int)
    requires from <= |s|
    ensures r == -1 || (from <= r && OccursAt(s, p, r))
    ensures r == -1 ==> forall i | from <= i <= |s| :: !OccursAt(s, p, i)
    ensures r != -1 ==> forall i | from <= i < r :: !OccursAt(s, p, i)
    decreases |s| - from
  {
    if OccursAt(s, p, from) then from
    else if from == |s| then -1
    else IndexOf(s, p, from + 1)
  }

  /** What a two-character replacement pattern `$c` stands for, for the four
      patterns that GetSubstitution expands when the search value is a string. */
  predicate IsPatternChar(c: char) {
    c == '$' || c == '`' || c == '&' || c == '\''
  }

  function PatternExpansion(c: char, matched: string, before: string, after: string): string
    requires IsPatternChar(c)
  {
    match c
    case '$' => "$"
    case '`' => before
    case '&' => matched
    case _ => after
  }

  /** GetSubstitution (section 22.1.3.19.1 of ECMA-262) for a string search value,
      which has no capture groups: `$$` becomes `$`, `` $` `` the text before the
      match, `$&` the match and `$'` the text after it; every other `$` (`$1`,
      `$<`, a trailing `$`) is kept literally, so a template without `$` is
      inserted as it is. */
  function Substitution(template: string, matched: string, before: string, after: string): (r: string)
    decreases |template|
  {
    if template == [] then ""
    else if template[0] == '$' && |template| >= 2 && IsPatternChar(template[1]) then
      PatternExpansion(template[1], matched, before, after) + Substitution(template[2..], matched, before, after)
    else
      [template[0]] + Substitution(template[1..], matched, before, after)
  }

  lemma {:induction false} SubstitutionOfLiteral(template: string, matched: string, before: string, after: string)
    requires '$' !in template
    ensures Substitution(template, matched, before, after) == template
  {
    if template != [] {
      SubstitutionOfLiteral(template[1..], matched, before, after);
    }
  }

  /** A `$`-free prefix of the template passes through unchanged, whatever follows it. */
  lemma {:induction false} SubstitutionOfLiteralPrefix(prefix: string, rest: string, matched: string, before: string, after: string)
    requires '$' !in prefix
    ensures Substitution(prefix + rest, matched, before, after) == prefix + Substitution(rest, matched, before, after)
  {
    if prefix != [] {
      assert (prefix + rest)[1..] == prefix[1..] + rest;
      assert '$' !in prefix[1..] by {
        forall k | 0 <= k < |prefix[1..]| ensures prefix[1..][k] != '$' {
          assert prefix[1..][k] == prefix[k + 1];
        }
      }
      var t := prefix + rest;
      assert t[0] == prefix[0] != '$';
      calc {
        Substitution(t, matched, before, after);
        [t[0]] + Substitution(t[1..], matched, before, after);
        { SubstitutionOfLiteralPrefix(prefix[1..], rest, matched, before, after); }
        [prefix[0]] + (prefix[1..] + Substitution(rest, matched, before, after));
        { assert prefix == [prefix[0]] + prefix[1..]; }
        prefix + Substitution(rest, matched, before, after);
      }
    } else {
      assert prefix + rest == rest;
    }
  }

  /** `s.replace(pattern, replacement)` with a string pattern: only the first
      occurrence is replaced, by the expanded replacement template. */
  function Replace(s: string, pattern: string, replacement: string): (r: string)
    ensures (forall i | 0 <= i <= |s| :: !OccursAt(s, pattern, i)) ==> r == s
    ensures StartsWith(s, pattern) ==>
      r == Substitution(replacement, pattern, "", s[|pattern|..]) + s[|pattern|..]
  {
    var pos := IndexOf(s, pattern, 0);
    if pos == -1 then s
    else
      s[..pos] + Substitution(replacement, pattern, s[..pos], s[pos + |pattern|..]) + s[pos + |pattern|..]
  }
}
