/**
 * SwaggerApiDescHelper: the descriptions shown for a method's parameters and return value,
 * the type names made safe for HTML by escaping angle brackets. How the JDK spells a type
 * (Type.getTypeName) and the platform's line separator are parameters.
 */
module ApiDescHelper {
  import opened JavaTypes

  /** String.replace of the one-character string `c` by `rep`: every occurrence, left to right. */
  function Replace(s: string, c: char, rep: string): (r: string)
    ensures c !in rep ==> c !in r
    ensures forall d :: d != c && d !in rep && d !in s ==> d !in r
  {
    if |s| == 0 then ""
    else (if s[0] == c then rep else [s[0]]) + Replace(s[1..], c, rep)
  }

  /** Replacing distributes over concatenation. */
  lemma {:induction false} ReplaceAppend(a: string, b: string, c: char, rep: string)
    ensures Replace(a + b, c, rep) == Replace(a, c, rep) + Replace(b, c, rep)
    decreases |a|
  {
    if |a| > 0 {
      assert (a + b)[1..] == a[1..] + b;
      ReplaceAppend(a[1..], b, c, rep);
    } else {
      assert a + b == b;
    }
  }

  /** Replacing a character that does not occur changes nothing. */
  lemma {:induction false} ReplaceAbsent(s: string, c: char, rep: string)
    requires c !in s
    ensures Replace(s, c, rep) == s
    decreases |s|
  {
    if |s| > 0 {
      assert s[0] != c;
      ReplaceAbsent(s[1..], c, rep);
      assert s == [s[0]] + s[1..];
    }
  }

  /** The escape both helpers apply: `<` by `&lt;`, then `>` by `&gt;`. */
  function Escape(s: string): (r: string)
    ensures '<' !in r && '>' !in r
  {
    Replace(Replace(s, '<', "&lt;"), '>', "&gt;")
  }

  /** What one character escapes to. */
  function EscapeChar(c: char): string
  {
    if c == '<' then "&lt;" else if c == '>' then "&gt;" else [c]
  }

  /** The reference reading of the escape: each character replaced on its own. */
  function EscapeEach(s: string): string
  {
    if |s| == 0 then "" else EscapeChar(s[0]) + EscapeEach(s[1..])
  }

  /**
   * The two passes of replace are the one-character-at-a-time escape: `&lt;` has no `>` for
   * the second pass to touch, so each `<` becomes `&lt;`, each `>` `&gt;`, and every other
   * character stays.
   */
  lemma {:induction false} EscapeIsPerCharacter(s: string)
    ensures Escape(s) == EscapeEach(s)
    decreases |s|
  {
    if |s| > 0 {
      var head := if s[0] == '<' then "&lt;" else [s[0]];
      var rest := Replace(s[1..], '<', "&lt;");
      assert Replace(s, '<', "&lt;") == head + rest;
      ReplaceAppend(head, rest, '>', "&gt;");
      if s[0] == '<' {
        ReplaceAbsent(head, '>', "&gt;");
      } else {
        assert Replace(head, '>', "&gt;") == (if s[0] == '>' then "&gt;" else [s[0]]) + Replace([], '>', "&gt;");
      }
      EscapeIsPerCharacter(s[1..]);
    }
  }

  /** The escape distributes over concatenation. */
  lemma EscapeDistributes(a: string, b: string)
    ensures Escape(a + b) == Escape(a) + Escape(b)
  {
    ReplaceAppend(a, b, '<', "&lt;");
    ReplaceAppend(Replace(a, '<', "&lt;"), Replace(b, '<', "&lt;"), '>', "&gt;");
  }

  /** A string without angle brackets is its own escape. */
  lemma EscapeKeepsPlain(s: string)
    requires '<' !in s && '>' !in s
    ensures Escape(s) == s
  {
    ReplaceAbsent(s, '<', "&lt;");
    ReplaceAbsent(s, '>', "&gt;");
  }

  /** The builder parameterDesc fills: each type name followed by the line separator, in parameter order. */
  function TypeLines(types: seq<JType>, typeName: JType -> string, lineSeparator: string): string
  {
    if |types| == 0 then "" else typeName(types[0]) + lineSeparator + TypeLines(types[1..], typeName, lineSeparator)
  }

  /** parameterDesc: the escaped lines of the generic parameter types. */
  function ParameterDesc(m: MethodRef, typeName: JType -> string, lineSeparator: string): (r: string)
    ensures '<' !in r && '>' !in r
    ensures |m.genericParameterTypes| == 0 ==> r == ""
  {
    Escape(TypeLines(m.genericParameterTypes, typeName, lineSeparator))
  }

  /** The escaped lines, one parameter at a time. */
  function EscapedLines(types: seq<JType>, typeName: JType -> string, lineSeparator: string): string
  {
    if |types| == 0 then ""
    else Escape(typeName(types[0])) + Escape(lineSeparator) + EscapedLines(types[1..], typeName, lineSeparator)
  }

  /** Escaping the whole builder is escaping each type name and separator in turn. */
  lemma {:induction false} EscapeLines(types: seq<JType>, typeName: JType -> string, lineSeparator: string)
    ensures Escape(TypeLines(types, typeName, lineSeparator)) == EscapedLines(types, typeName, lineSeparator)
    decreases |types|
  {
    if |types| > 0 {
      var name, rest := typeName(types[0]), TypeLines(types[1..], typeName, lineSeparator);
      assert TypeLines(types, typeName, lineSeparator) == name + (lineSeparator + rest);
      EscapeDistributes(name, lineSeparator + rest);
      EscapeDistributes(lineSeparator, rest);
      EscapeLines(types[1..], typeName, lineSeparator);
    }
  }

  /** parameterDesc, parameter by parameter: the escaped name of each, followed by the escaped separator. */
  lemma ParameterDescPerParameter(m: MethodRef, typeName: JType -> string, lineSeparator: string)
    ensures ParameterDesc(m, typeName, lineSeparator) == EscapedLines(m.genericParameterTypes, typeName, lineSeparator)
  {
    EscapeLines(m.genericParameterTypes, typeName, lineSeparator);
  }

  /** returnDesc: the escaped name of the generic return type. */
  function ReturnDesc(m: MethodRef, typeName: JType -> string): (r: string)
    ensures '<' !in r && '>' !in r
    ensures '<' !in typeName(m.genericReturnType) && '>' !in typeName(m.genericReturnType) ==>
      r == typeName(m.genericReturnType)
  {
    var returnDesc := typeName(m.genericReturnType);
    EscapeKeepsPlainWhen(returnDesc);
    Escape(returnDesc)
  }

  lemma EscapeKeepsPlainWhen(s: string)
    ensures '<' !in s && '>' !in s ==> Escape(s) == s
  {
    if '<' !in s && '>' !in s {
      EscapeKeepsPlain(s);
    }
  }
}
