/**
 * The part of C's `sprintf` the server uses: a format made of literal text
 * and the conversions `%d` (of a non-negative `int`) and `%s`, and the text
 * it writes into the destination before the terminating NUL.
 *
 * String arguments are taken to hold no NUL, as every argument the server
 * passes does: `%s` of a string with a NUL would stop at it, and `Format`
 * copies the whole argument.
 */
module Printf {
  import opened Decimal

  /** One piece of a format: literal text or a conversion. */
  datatype Piece = Lit(text: string) | IntConv | StrConv

  /** An argument passed after the format. */
  datatype Arg = IntArg(n: nat) | StrArg(s: string)

  /** The format text itself, each conversion spelled with its two characters. */
  function Spell(t: seq<Piece>): string
  {
    if t == [] then []
    else
      var head := match t[0]
        case Lit(text) => text
        case IntConv => "%d"
        case StrConv => "%s";
      head + Spell(t[1..])
  }

  /** The number of conversions in a format. */
  function Conversions(t: seq<Piece>): nat
  {
    if t == [] then 0 else (if t[0].Lit? then 0 else 1) + Conversions(t[1..])
  }

  /** The arguments match the conversions one for one, in order and in kind. */
  predicate Conforms(t: seq<Piece>, args: seq<Arg>)
  {
    if t == [] then args == []
    else match t[0]
      case Lit(_) => Conforms(t[1..], args)
      case IntConv => |args| > 0 && args[0].IntArg? && Conforms(t[1..], args[1..])
      case StrConv => |args| > 0 && args[0].StrArg? && Conforms(t[1..], args[1..])
  }

  /** The total length the arguments expand to. */
  function ArgWidth(args: seq<Arg>): nat
  {
    if args == [] then 0
    else
      (match args[0] case IntArg(n) => |Render(n)| case StrArg(s) => |s|) + ArgWidth(args[1..])
  }

  /**
   * The text `sprintf` writes for format `t` and arguments `args`, without
   * the terminating NUL: each conversion's two characters in the format are
   * replaced by the text of its argument.
   */
  function Format(t: seq<Piece>, args: seq<Arg>): (r: string)
    requires Conforms(t, args)
    ensures |r| + 2 * Conversions(t) == |Spell(t)| + ArgWidth(args)
  {
    if t == [] then []
    else match t[0]
      case Lit(text) => text + Format(t[1..], args)
      case IntConv => Render(args[0].n) + Format(t[1..], args[1..])
      case StrConv => args[0].s + Format(t[1..], args[1..])
  }

  /** Proof step: a format that starts with literal text writes that text first. */
  lemma FormatLit(text: string, t: seq<Piece>, args: seq<Arg>)
    requires Conforms(t, args)
    ensures Conforms([Lit(text)] + t, args)
    ensures Spell([Lit(text)] + t) == text + Spell(t)
    ensures Conversions([Lit(text)] + t) == Conversions(t)
    ensures Format([Lit(text)] + t, args) == text + Format(t, args)
  {
    assert ([Lit(text)] + t)[1..] == t;
  }

  /** Proof step: a format that starts with `%d` writes the decimal rendering of its argument first. */
  lemma FormatInt(n: nat, t: seq<Piece>, args: seq<Arg>)
    requires Conforms(t, args)
    ensures Conforms([IntConv] + t, [IntArg(n)] + args)
    ensures Spell([IntConv] + t) == "%d" + Spell(t)
    ensures Conversions([IntConv] + t) == Conversions(t) + 1
    ensures Format([IntConv] + t, [IntArg(n)] + args) == Render(n) + Format(t, args)
  {
    assert ([IntConv] + t)[1..] == t && ([IntArg(n)] + args)[1..] == args;
  }

  /** Proof step: a format that starts with `%s` writes its argument string first. */
  lemma FormatStr(s: string, t: seq<Piece>, args: seq<Arg>)
    requires Conforms(t, args)
    ensures Conforms([StrConv] + t, [StrArg(s)] + args)
    ensures Spell([StrConv] + t) == "%s" + Spell(t)
    ensures Conversions([StrConv] + t) == Conversions(t) + 1
    ensures Format([StrConv] + t, [StrArg(s)] + args) == s + Format(t, args)
  {
    assert ([StrConv] + t)[1..] == t && ([StrArg(s)] + args)[1..] == args;
  }
}
