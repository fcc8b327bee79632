/**
 Token types and their spelling. The types are numbered in the order of the enumeration they
 model; comparing numbers keeps reasoning about them cheap.
 */
module Tokens {

  newtype TokenType = k: int | 0 <= k < 91

  const TOKEN_ERROR: TokenType := 0
  const COLON: TokenType := 1
  const COLON_COLON: TokenType := 2
  const QUESTION: TokenType := 3
  const GREATER: TokenType := 4
  const GREATER_EQUAL: TokenType := 5
  const LESS: TokenType := 6
  const LESS_EQUAL: TokenType := 7
  const AND: TokenType := 8
  const OR: TokenType := 9
  const BANG_EQUAL: TokenType := 10
  const EQUAL_EQUAL: TokenType := 11
  const MINUS: TokenType := 12
  const PLUS: TokenType := 13
  const FORWARD_SLASH: TokenType := 14
  const STAR: TokenType := 15
  const STAR_STAR: TokenType := 16
  const PERCENT: TokenType := 17
  const DOT_DOT: TokenType := 18
  const DOT_DOT_EQUAL: TokenType := 19
  const TILDE: TokenType := 20
  const CARET: TokenType := 21
  const AT: TokenType := 22
  const BANG: TokenType := 23
  const PLUS_EQUAL: TokenType := 24
  const MINUS_EQUAL: TokenType := 25
  const STAR_EQUAL: TokenType := 26
  const SLASH_EQUAL: TokenType := 27
  const EQUAL: TokenType := 28
  const PLUS_PLUS: TokenType := 29
  const MINUS_MINUS: TokenType := 30
  const LEFT_PAREN: TokenType := 31
  const RIGHT_PAREN: TokenType := 32
  const LEFT_BRACE: TokenType := 33
  const RIGHT_BRACE: TokenType := 34
  const LEFT_BRACKET: TokenType := 35
  const RIGHT_BRACKET: TokenType := 36
  const COMMA: TokenType := 37
  const DOLLAR: TokenType := 38
  const HASH: TokenType := 39
  const DOT: TokenType := 40
  const ELLIPSE: TokenType := 41
  const SEMI_COLON: TokenType := 42
  const AMPERSAND: TokenType := 43
  const PIPE: TokenType := 44
  const ARROW: TokenType := 45
  const FN: TokenType := 46
  const TRUE: TokenType := 47
  const ELSE: TokenType := 48
  const FALSE: TokenType := 49
  const RETURN: TokenType := 50
  const IMPORT: TokenType := 51
  const EXTERN: TokenType := 52
  const PRIVATE: TokenType := 53
  const STATIC: TokenType := 54
  const VOLATILE: TokenType := 55
  const CONST: TokenType := 56
  const INOUT: TokenType := 57
  const VAR: TokenType := 58
  const LET: TokenType := 59
  const IMUT: TokenType := 60
  const ALIGN_OF: TokenType := 61
  const TYPE_OF: TokenType := 62
  const ALIAS: TokenType := 63
  const DISTINCT: TokenType := 64
  const ENUM: TokenType := 65
  const ERROR: TokenType := 66
  const ASYNC: TokenType := 67
  const AWAIT: TokenType := 68
  const FOR: TokenType := 69
  const IN: TokenType := 70
  const IF: TokenType := 71
  const LOOP: TokenType := 72
  const WHILE: TokenType := 73
  const MATCH: TokenType := 74
  const CONTINUE: TokenType := 75
  const BREAK: TokenType := 76
  const CAST: TokenType := 77
  const NIL: TokenType := 78
  const IDENTIFIER: TokenType := 79
  const STRING_LITERAL: TokenType := 80
  const CHAR_LITERAL: TokenType := 81
  const INTEGER_LITERAL: TokenType := 82
  const DECIMAL_LITERAL: TokenType := 83
  const SIZEOF: TokenType := 84
  const NAMEOF: TokenType := 85
  const STRUCT: TokenType := 86
  const IMPL: TokenType := 87
  const TRAIT: TokenType := 88
  const UNION: TokenType := 89
  const EOF: TokenType := 90

  datatype Token = Token(kind: TokenType, lexeme: string)

  /** The one spelling of operators, punctuation and keywords; empty for all other types. */
  function Spelling(kind: TokenType): string {
    if kind == COLON then ":"
    else if kind == COLON_COLON then "::"
    else if kind == QUESTION then "?"
    else if kind == GREATER then ">"
    else if kind == GREATER_EQUAL then ">="
    else if kind == LESS then "<"
    else if kind == LESS_EQUAL then "<="
    else if kind == AND then "and"
    else if kind == OR then "or"
    else if kind == BANG_EQUAL then "!="
    else if kind == EQUAL_EQUAL then "=="
    else if kind == MINUS then "-"
    else if kind == PLUS then "+"
    else if kind == FORWARD_SLASH then "/"
    else if kind == STAR then "*"
    else if kind == STAR_STAR then "**"
    else if kind == PERCENT then "%"
    else if kind == DOT_DOT then ".."
    else if kind == DOT_DOT_EQUAL then "..="
    else if kind == TILDE then "~"
    else if kind == CARET then "^"
    else if kind == AT then "@"
    else if kind == BANG then "!"
    else if kind == PLUS_EQUAL then "+="
    else if kind == MINUS_EQUAL then "-="
    else if kind == STAR_EQUAL then "*="
    else if kind == SLASH_EQUAL then "/="
    else if kind == EQUAL then "="
    else if kind == PLUS_PLUS then "++"
    else if kind == MINUS_MINUS then "--"
    else if kind == LEFT_PAREN then "("
    else if kind == RIGHT_PAREN then ")"
    else if kind == LEFT_BRACE then "{"
    else if kind == RIGHT_BRACE then "}"
    else if kind == LEFT_BRACKET then "["
    else if kind == RIGHT_BRACKET then "]"
    else if kind == COMMA then ","
    else if kind == DOLLAR then "$"
    else if kind == HASH then "#"
    else if kind == DOT then "."
    else if kind == ELLIPSE then "..."
    else if kind == SEMI_COLON then ";"
    else if kind == AMPERSAND then "&"
    else if kind == PIPE then "|"
    else if kind == ARROW then "=>"
    else if kind == FN then "fn"
    else if kind == TRUE then "true"
    else if kind == ELSE then "else"
    else if kind == FALSE then "false"
    else if kind == RETURN then "return"
    else if kind == IMPORT then "import"
    else if kind == EXTERN then "extern"
    else if kind == PRIVATE then "private"
    else if kind == STATIC then "static"
    else if kind == VOLATILE then "volatile"
    else if kind == CONST then "const"
    else if kind == INOUT then "inout"
    else if kind == VAR then "var"
    else if kind == LET then "let"
    else if kind == IMUT then "imut"
    else if kind == ALIGN_OF then "alignof"
    else if kind == ALIAS then "alias"
    else if kind == DISTINCT then "distinct"
    else if kind == ENUM then "enum"
    else if kind == ERROR then "error"
    else if kind == ASYNC then "async"
    else if kind == AWAIT then "await"
    else if kind == FOR then "for"
    else if kind == IN then "in"
    else if kind == IF then "if"
    else if kind == LOOP then "loop"
    else if kind == WHILE then "while"
    else if kind == MATCH then "match"
    else if kind == CONTINUE then "continue"
    else if kind == BREAK then "break"
    else if kind == CAST then "cast"
    else if kind == NIL then "nil"
    else if kind == SIZEOF then "sizeof"
    else if kind == NAMEOF then "nameof"
    else if kind == STRUCT then "struct"
    else if kind == IMPL then "impl"
    else if kind == TRAIT then "trait"
    else if kind == UNION then "union"
    else ""
  }

  /** A token of fixed spelling carries that spelling; an error token carries a message instead. */
  predicate Canonical(t: Token) {
    t.kind != ERROR && Spelling(t.kind) != "" ==> t.lexeme == Spelling(t.kind)
  }

  function Fixed(kind: TokenType): Token {
    Token(kind, Spelling(kind))
  }
}
