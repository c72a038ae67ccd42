/** The ParaC parser driver (ParaC/parser/driver.h): keyword recognition, the rewriting of the
    lexer's tokens before the parser sees them, and the success flag of `parse`. */
module ParaCDriver {

  /** The parser's token types that the driver distinguishes; every other token type is `Other`. */
  datatype Token = Number | Word | While | If | Print | Type | Variable | Error | Other(code: int)

  predicate IsKeywordToken(t: Token) {
    t == While || t == If || t == Print || t == Type
  }

  /** Driver::isKeyWord: the token of a reserved word, ERROR for any other string. */
  function IsKeyWord(str: string): (t: Token)
    ensures t == While <==> str == "while"
    ensures t == If <==> str == "if"
    ensures t == Print <==> str == "print"
    ensures t == Type <==> str == "int"
    ensures t == Error <==> str !in {"while", "if", "print", "int"}
  {
    if str == "while" then While
    else if str == "if" then If
    else if str == "print" then Print
    else if str == "int" then Type
    else Error
  }

  /** The reserved word of a keyword token. */
  function Spelling(t: Token): string
    requires IsKeywordToken(t)
  {
    match t
    case While => "while"
    case If => "if"
    case Print => "print"
    case Type => "int"
  }

  /** Every keyword token is recognised from its spelling, and every recognised word is the
      spelling of its token. */
  lemma SpellingRoundTrip(t: Token, str: string)
    ensures IsKeywordToken(t) ==> IsKeyWord(Spelling(t)) == t
    ensures IsKeyWord(str) != Error ==> IsKeywordToken(IsKeyWord(str)) && Spelling(IsKeyWord(str)) == str
  {
  }

  /** The semantic value the driver hands the parser with a token. */
  datatype Semantic = NoValue | Num(number: real) | Text(text: string)

  /** The token yylex returns for the lexer's token `lexed` with text `text`: a word becomes
      its keyword token or VARIABLE, anything else is passed through. */
  function Rewrite(lexed: Token, text: string): (t: Token)
    ensures t != Word
    ensures lexed != Word ==> t == lexed
    ensures lexed == Word ==> (t == Variable <==> IsKeyWord(text) == Error)
    ensures lexed == Word && t != Variable ==> IsKeywordToken(t) && Spelling(t) == text
  {
    if lexed == Word then
      var keyword := IsKeyWord(text);
      if keyword != Error then keyword else Variable
    else
      lexed
  }

  /** The value yylex stores for that token: the number for NUMBER, the word for VARIABLE,
      nothing new otherwise. `stod` is std::stod. */
  function Stored(lexed: Token, text: string, stod: string -> real, previous: Semantic): (v: Semantic)
    ensures lexed == Number ==> v == Num(stod(text))
    ensures Rewrite(lexed, text) == Variable && lexed == Word ==> v == Text(text)
    ensures lexed != Number && (lexed != Word || IsKeyWord(text) != Error) ==> v == previous
  {
    if lexed == Number then Num(stod(text))
    else if lexed == Word && IsKeyWord(text) == Error then Text(text)
    else previous
  }

  /** The parser's semantic_type slot that yylex writes through `yylval`. */
  class SemanticSlot {
    var value: Semantic

    constructor ()
      ensures value == NoValue
    {
      value := NoValue;
    }
  }

  /** Driver::yylex. The lexer is abstracted: `lexed` and `text` are what lexer_->yylex() and
      lexer_->YYText() give. */
  method Yylex(lexed: Token, text: string, stod: string -> real, yylval: SemanticSlot) returns (tokenType: Token)
    modifies yylval
    ensures tokenType == Rewrite(lexed, text)
    ensures yylval.value == Stored(lexed, text, stod, old(yylval.value))
  {
    tokenType := lexed;
    match tokenType {
      case Number =>
        yylval.value := Num(stod(text));
      case Word =>
        var word := text;
        var tmp := IsKeyWord(word);
        if tmp != Error {
          tokenType := tmp;
        } else {
          yylval.value := Text(word);
          tokenType := Variable;
        }
      case _ =>
    }
  }

  /** Driver::parse: true exactly when the generated parser reports success (status 0). */
  function Parse(status: int): (ok: bool)
    ensures ok <==> status == 0
  {
    var failed := status != 0;
    !failed
  }
}
