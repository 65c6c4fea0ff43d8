/**
 * The names a generated module cannot export, by the standard's list: section 12.7.2 of ECMA-262.
 *
 * The compiler refuses a namespace with such a name, because the generated module exports a constant named like the
 * namespace. It refuses the names that the generated code uses itself for the same reason, and no others: that the
 * list in the compiler is this one is proved word by word.
 */
module Keywords {
  import opened Lowering

  /** `ReservedWord`, in two halves. */
  const RESERVED_TO_F: set<string> := {
    "await", "break", "case", "catch", "class", "const", "continue", "debugger", "default", "delete", "do", "else",
    "enum", "export", "extends", "false", "finally", "for", "function"
  }
  const RESERVED_FROM_I: set<string> := {
    "if", "import", "in", "instanceof", "new", "null", "return", "super", "switch", "this", "throw", "true", "try",
    "typeof", "var", "void", "while", "with", "yield"
  }

  /** What is reserved besides in strict mode code, as all module code is. */
  const RESERVED_IN_STRICT_MODE: set<string> := {
    "let", "static", "implements", "interface", "package", "private", "protected", "public"
  }

  predicate IsKeyword(n: string) {
    n in RESERVED_TO_F || n in RESERVED_FROM_I || n in RESERVED_IN_STRICT_MODE
  }

  lemma ToF(n: string)
    ensures n in RESERVED_TO_F <==> n in WORDS_A_TO_F
  {
  }

  lemma FromI(n: string)
    ensures n in RESERVED_FROM_I ==> n in WORDS_I_TO_Y
  {
  }

  lemma InStrictMode(n: string)
    ensures n in RESERVED_IN_STRICT_MODE ==> n in WORDS_I_TO_Y
  {
  }

  lemma NoOthers(n: string)
    requires n in WORDS_I_TO_Y
    ensures n in RESERVED_FROM_I || n in RESERVED_IN_STRICT_MODE
  {
  }

  /** A name is refused as reserved if and only if it is a keyword or one of those the generated code uses itself. */
  lemma ReservedExactly(n: string)
    ensures n in RESERVED_NAMESPACE_NAMES <==>
            IsKeyword(n) || n in {"defineNamespace", "computed", "tupleToUserset", "union", "intersection", "exclusion", "model"}
  {
    ToF(n);
    FromI(n);
    InStrictMode(n);
    if n in WORDS_I_TO_Y {
      NoOthers(n);
    }
  }
}
