/** The text of an expression, token by token, as the language of apps/calc.c, lines 367-376, has it:
    its blanks and its brackets wherever they may stand, its names in either case, its products with or
    without a sign. */
module CalcText {
  import opened Common
  import opened CalcLang
  import opened CalcParse
  import opened CalcTrees

  /** A text, and the blanks before each of its tokens.  `Beside` is a product with no sign. */
  datatype Text =
    | Atomic(gap: nat, tok: string, l: Atom)
    | Call(gap: nat, name: string, k: nat, gap1: nat, a: Text, gap2: nat)
    | Curve(gap: nat, y: char, k: nat, a: Text, gap2: nat)
    | Group(gap: nat, a: Text, gap2: nat)
    | Signed(gap: nat, minus: bool, a: Text)
    | Bang(a: Text, gap: nat)
    | Infix(o: BinOp, a: Text, gap: nat, b: Text)
    | Beside(a: Text, b: Text)

  function Gap(g: nat, s: string): string {
    if g == 0 then s else " " + Gap(g - 1, s)
  }

  function Sign(o: BinOp): string {
    match o
    case Add => "+"
    case Sub => "-"
    case Mul => "*"
    case Div => "/"
    case Pow => "^"
  }

  function GraphDigit(k: nat): char {
    if k < NFUN then (k + '1' as int) as char else '?'
  }

  /** The text, and then `rest`. */
  function Put(t: Text, rest: string): string
    decreases t
  {
    match t
    case Atomic(g, tok, _) => Gap(g, tok + rest)
    case Call(g, name, _, g1, a, g2) => Gap(g, name + Gap(g1, "(" + Put(a, Gap(g2, ")" + rest))))
    case Curve(g, y, k, a, g2) => Gap(g, [y] + ([GraphDigit(k)] + ("(" + Put(a, Gap(g2, ")" + rest)))))
    case Group(g, a, g2) => Gap(g, "(" + Put(a, Gap(g2, ")" + rest)))
    case Signed(g, minus, a) => Gap(g, (if minus then "-" else "+") + Put(a, rest))
    case Bang(a, g) => Put(a, Gap(g, "!" + rest))
    case Infix(o, a, g, b) => Put(a, Gap(g, Sign(o) + Put(b, rest)))
    case Beside(a, b) => Put(a, Put(b, rest))
  }

  /** The tree it is the text of. */
  function Tree(t: Text): Expr {
    match t
    case Atomic(_, _, l) => Leaf(l)
    case Call(_, _, k, _, a, _) => Un(Fn(k), Tree(a))
    case Curve(_, _, k, a, _) => Un(Y(k), Tree(a))
    case Group(_, a, _) => Tree(a)
    case Signed(_, minus, a) => if minus then Un(Neg, Tree(a)) else Tree(a)
    case Bang(a, _) => Un(Fact, Tree(a))
    case Infix(o, a, _, b) => Bin(o, Tree(a), Tree(b))
    case Beside(a, b) => Bin(Mul, Tree(a), Tree(b))
  }

  // ---- precedence --------------------------------------------------------------------------

  /** How tightly a text binds: + - below * / and products without a sign, below signs, below ^, below
      !, below the rest. */
  function Level(t: Text): nat {
    match t
    case Infix(o, _, _, _) => if o.Add? || o.Sub? then 0 else if o.Pow? then 3 else 1
    case Beside(_, _) => 1
    case Signed(_, _, _) => 2
    case Bang(_, _) => 4
    case _ => 5
  }

  /** How tight the operands must be: + and * group to the left, ^ to the right. */
  function LeftLevel(o: BinOp): nat {
    match o
    case Add | Sub => 0
    case Pow => 4
    case _ => 1
  }

  function RightLevel(o: BinOp): nat {
    match o
    case Add | Sub => 1
    case _ => 2
  }

  /** The text starts with a name or a bracket, not a number: it may stand straight after a factor. */
  predicate OpensFactor(t: Text) {
    match t
    case Atomic(_, _, l) => !l.Num?
    case Call(_, _, _, _, _, _) => true
    case Curve(_, _, _, _, _) => true
    case Group(_, _, _) => true
    case Bang(a, _) => OpensFactor(a)
    case Infix(o, a, _, _) => o.Pow? && OpensFactor(a)
    case _ => false
  }

  /** Every operand is as tight as its place wants it. */
  predicate Grammatical(t: Text) {
    match t
    case Atomic(_, _, _) => true
    case Call(_, _, _, _, a, _) => Grammatical(a)
    case Curve(_, _, _, a, _) => Grammatical(a)
    case Group(_, a, _) => Grammatical(a)
    case Signed(_, _, a) => Level(a) >= 2 && Grammatical(a)
    case Bang(a, _) => Level(a) >= 4 && Grammatical(a)
    case Infix(o, a, _, b) =>
      Level(a) >= LeftLevel(o) && Level(b) >= RightLevel(o) && Grammatical(a) && Grammatical(b)
    case Beside(a, b) =>
      Level(a) >= 1 && Level(b) >= 3 && OpensFactor(b) && Grammatical(a) && Grammatical(b)
  }

  // ---- tokens ------------------------------------------------------------------------------

  /** The letters of tok, with rest after them, are split off as the word w. */
  predicate IsWord(tok: string, rest: string, w: Word) {
    tok != "" && IsAlpha(tok[0]) && FirstWord(tok + rest) == (|tok|, w)
  }

  /** The literal is read whole before rest, with its own value. */
  predicate IsLiteral(tok: string, rest: string) {
    IsNumeral(tok)
    && Numeral(tok + rest) == Some((Numeral(tok).value.0, Numeral(tok).value.1, rest))
  }

  /** The token is read as the atom, whatever follows. */
  predicate IsAtom(tok: string, rest: string, l: Atom) {
    match l
    case Num(lit) => lit == tok && IsLiteral(tok, rest)
    case E => IsWord(tok, rest, WLetter('e'))
    case Pi => IsWord(tok, rest, WPi)
    case X => IsWord(tok, rest, WLetter('x'))
    case Ans => IsWord(tok, rest, WAns)
    case Var(v) => IsWord(tok, rest, WLetter(v))
  }

  /** Every number and name is split off as the one it is, however close the next token comes. */
  predicate Split(t: Text, rest: string)
    decreases t
  {
    match t
    case Atomic(_, tok, l) => IsAtom(tok, rest, l)
    case Call(_, name, k, g1, a, g2) =>
      IsWord(name, Gap(g1, "(" + Put(a, Gap(g2, ")" + rest))), WFn(k)) && Split(a, Gap(g2, ")" + rest))
    case Curve(_, y, k, a, g2) =>
      IsWord([y], [GraphDigit(k)] + ("(" + Put(a, Gap(g2, ")" + rest))), WLetter('y')) && Split(a, Gap(g2, ")" + rest))
    case Group(_, a, g2) => Split(a, Gap(g2, ")" + rest))
    case Signed(_, _, a) => Split(a, rest)
    case Bang(a, g) => Split(a, Gap(g, "!" + rest))
    case Infix(o, a, g, b) => Split(a, Gap(g, Sign(o) + Put(b, rest))) && Split(b, rest)
    case Beside(a, b) => Split(a, Put(b, rest)) && Split(b, rest)
  }

  /** A text the calculator reads as its tree: its variables are set, its graphs on and allowed. */
  predicate TextOk<F>(c: Ctx<F>, t: Text, rest: string) {
    Grammatical(t) && Split(t, rest) && Sayable(c, Tree(t))
  }

  /** The line s is the text t and then g blanks. */
  predicate IsLine<F>(c: Ctx<F>, s: string, t: Text, g: nat) {
    s == Put(t, Gap(g, "")) && TextOk(c, t, Gap(g, ""))
  }

  // ---- blanks --------------------------------------------------------------------------------

  lemma {:induction false} TrimGap(g: nat, s: string)
    ensures Trim(Gap(g, s)) == Trim(s)
  {
    if g > 0 {
      TrimGap(g - 1, s);
      assert Gap(g, s)[1..] == Gap(g - 1, s);
    }
  }

  lemma TrimOf(s: string)
    requires Head(s) != ' '
    ensures Trim(s) == s
  {
  }

  lemma TrimTrim(s: string)
    ensures Trim(Trim(s)) == Trim(s)
  {
    TrimOf(Trim(s));
  }

  /** A token after g blanks. */
  lemma TrimToken(g: nat, s: string)
    requires Head(s) != ' '
    ensures Trim(Gap(g, s)) == s
  {
    TrimGap(g, s);
    TrimOf(s);
  }
}
