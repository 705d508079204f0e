/** The positional-placeholder semantics of the `format!` call the template is
    handed to: the template is read left to right and every `{}` is replaced
    by the next unused argument.  Escaped braces (`{{`, `}}`), named and
    formatted placeholders are not modelled; a lone brace is copied as it is. */
module Placeholders {
  import opened Markup

  lemma AppendAssoc<T>(a: seq<T>, b: seq<T>, c: seq<T>)
    ensures (a + b) + c == a + (b + c)
  {
  }

  /** Whether `s` contains no brace at all. */
  predicate Braceless(s: string)
  {
    '{' !in s && '}' !in s
  }

  /** Whether `s` does not end in `{`, so that nothing appended after it can
      complete a placeholder that straddles the seam. */
  predicate NoOpenEnd(s: string)
  {
    |s| == 0 || s[|s| - 1] != '{'
  }

  /** The number of `{}` placeholders in `t`, read left to right. */
  function Holes(t: string): nat
  {
    if |t| < 2 then 0
    else if t[0] == '{' && t[1] == '}' then 1 + Holes(t[2..])
    else Holes(t[1..])
  }

  /** The text produced so far and the arguments not yet used. */
  datatype Filled = Filled(text: string, unused: seq<string>)

  /** Fills the placeholders of `t` from `args`, in order, and returns the
      text produced with the arguments left over; `None` when the arguments
      run out. */
  function Fill(t: string, args: seq<string>): Option<Filled>
  {
    if |t| >= 2 && t[0] == '{' && t[1] == '}' then
      if args == [] then None
      else match Fill(t[2..], args[1..])
        case None => None
        case Some(f) => Some(Filled(args[0] + f.text, f.unused))
    else if |t| == 0 then Some(Filled("", args))
    else match Fill(t[1..], args)
      case None => None
      case Some(f) => Some(Filled([t[0]] + f.text, f.unused))
  }

  /** Filling fails exactly when `t` has more placeholders than there are
      arguments; otherwise the arguments left over are those after the first
      `Holes(t)`. */
  lemma {:induction false} FillUses(t: string, args: seq<string>)
    ensures Fill(t, args).Some? <==> Holes(t) <= |args|
    ensures Fill(t, args).Some? ==> Fill(t, args).value.unused == args[Holes(t)..]
  {
    if |t| >= 2 && t[0] == '{' && t[1] == '}' {
      if args != [] {
        FillUses(t[2..], args[1..]);
      }
    } else if |t| > 0 {
      FillUses(t[1..], args);
    }
  }

  /** The whole substitution: well formed exactly when every argument fills
      one placeholder and every placeholder gets one argument. */
  function Substitute(t: string, args: seq<string>): (r: Option<string>)
    ensures r.Some? <==> Holes(t) == |args|
  {
    FillUses(t, args);
    match Fill(t, args)
    case Some(f) => if f.unused == [] then Some(f.text) else None
    case None => None
  }

  /** Text without braces is copied unchanged and uses no argument. */
  lemma {:induction false} FillBraceless(s: string, args: seq<string>)
    requires Braceless(s)
    ensures Fill(s, args) == Some(Filled(s, args))
    ensures NoOpenEnd(s)
  {
    if |s| > 0 {
      assert s[0] in s;
      assert forall c :: c in s[1..] ==> c in s;
      FillBraceless(s[1..], args);
      assert [s[0]] + s[1..] == s;
    }
  }

  /** A bare placeholder takes the next argument. */
  lemma FillHole(x: string, rest: seq<string>)
    ensures Fill("{}", [x] + rest) == Some(Filled(x, rest))
  {
    var t := "{}";
    assert t[2..] == "";
    assert ([x] + rest)[1..] == rest;
    assert x + "" == x;
  }

  /** Continues a fill of a first part with a second part. */
  function FillAfter(first: Option<Filled>, b: string): Option<Filled>
  {
    match first
    case None => None
    case Some(fa) =>
      match Fill(b, fa.unused)
      case None => None
      case Some(fb) => Some(Filled(fa.text + fb.text, fb.unused))
  }

  /** Filling a concatenation fills the first part, then the second part
      from the arguments the first left over, provided no placeholder
      straddles the seam. */
  lemma {:induction false} FillConcat(a: string, b: string, args: seq<string>)
    requires NoOpenEnd(a)
    ensures Fill(a + b, args) == FillAfter(Fill(a, args), b)
  {
    if |a| == 0 {
      assert a + b == b;
      match Fill(b, args)
      case None =>
      case Some(fb) => assert "" + fb.text == fb.text;
    } else if |a| >= 2 && a[0] == '{' && a[1] == '}' {
      assert (a + b)[2..] == a[2..] + b;
      if args != [] {
        FillConcat(a[2..], b, args[1..]);
        FillAfterPrepend(Fill(a[2..], args[1..]), b, args[0]);
      }
    } else {
      assert |a| >= 2 || a[0] != '{';
      assert (a + b)[1..] == a[1..] + b;
      FillConcat(a[1..], b, args);
      FillAfterPrepend(Fill(a[1..], args), b, [a[0]]);
    }
  }

  /** Text put in front of the first part stays in front. */
  lemma FillAfterPrepend(first: Option<Filled>, b: string, x: string)
    ensures FillAfter(match first case None => None case Some(f) => Some(Filled(x + f.text, f.unused)), b)
         == match FillAfter(first, b) case None => None case Some(f) => Some(Filled(x + f.text, f.unused))
  {
    match first
    case None =>
    case Some(fa) =>
      match Fill(b, fa.unused)
      case None =>
      case Some(fb) => assert x + (fa.text + fb.text) == (x + fa.text) + fb.text;
  }

  /** The step used to build up a template piece by piece. */
  lemma FillThen(t1: string, t2: string, args: seq<string>, mid: seq<string>, rest: seq<string>,
                 h1: string, h2: string)
    requires NoOpenEnd(t1)
    requires Fill(t1, args) == Some(Filled(h1, mid))
    requires Fill(t2, mid) == Some(Filled(h2, rest))
    ensures Fill(t1 + t2, args) == Some(Filled(h1 + h2, rest))
    ensures NoOpenEnd(t2) ==> NoOpenEnd(t1 + t2)
  {
    FillConcat(t1, t2, args);
    if |t2| == 0 {
      assert t1 + t2 == t1;
    }
  }

  /** Appending braceless literal text appends it to the output and uses no argument. */
  lemma FillThenLiteral(t: string, lit: string, args: seq<string>, rest: seq<string>, h: string)
    requires NoOpenEnd(t) && Braceless(lit)
    requires Fill(t, args) == Some(Filled(h, rest))
    ensures Fill(t + lit, args) == Some(Filled(h + lit, rest))
    ensures NoOpenEnd(t + lit)
  {
    FillBraceless(lit, rest);
    FillThen(t, lit, args, rest, rest, h, lit);
  }
}
