/**
 * The rewrite `message.replace(/\n/g, '<br>')` that the handler applies to the
 * message before embedding it in the HTML body of the e-mail.
 */
module LineBreaks {

  const Break: string := "<br>"

  /** What one character of the message becomes. */
  function Replacement(c: char): string {
    if c == '\n' then Break else [c]
  }

  /** Number of line feeds in `s`. */
  function Newlines(s: string): nat {
    multiset(s)['\n']
  }

  /** Every `\n` replaced by `<br>`, everything else copied. */
  function NewlinesToBreaks(m: string): (r: string)
    ensures forall k | 0 <= k < |r| :: r[k] != '\n'
  {
    if m == [] then [] else Replacement(m[0]) + NewlinesToBreaks(m[1..])
  }

  /** Each line feed grows the text by three characters; nothing else changes
      its length. */
  lemma {:induction false} RewriteLength(m: string)
    ensures |NewlinesToBreaks(m)| == |m| + 3 * Newlines(m)
  {
    if m != [] {
      assert m == [m[0]] + m[1..];
      RewriteLength(m[1..]);
    }
  }

  /** A message without line feeds comes back unchanged. */
  lemma {:induction false} NoNewlineUnchanged(m: string)
    requires '\n' !in m
    ensures NewlinesToBreaks(m) == m
  {
    if m != [] {
      NoNewlineUnchanged(m[1..]);
      assert m == [m[0]] + m[1..];
    }
  }

  /** The rewrite works piecewise: it distributes over concatenation. */
  lemma {:induction false} RewriteAppend(a: string, b: string)
    ensures NewlinesToBreaks(a + b) == NewlinesToBreaks(a) + NewlinesToBreaks(b)
  {
    if a != [] {
      assert (a + b)[0] == a[0] && (a + b)[1..] == a[1..] + b;
      RewriteAppend(a[1..], b);
    } else {
      assert a + b == b;
    }
  }

  /** Two lines joined by one line feed are joined by one `<br>` instead. */
  lemma TwoLines(first: string, second: string)
    requires '\n' !in first && '\n' !in second
    ensures NewlinesToBreaks(first + "\n" + second) == first + Break + second
  {
    RewriteAppend(first + "\n", second);
    RewriteAppend(first, "\n");
    NoNewlineUnchanged(first);
    NoNewlineUnchanged(second);
    assert NewlinesToBreaks("\n") == Break by {
      assert "\n"[1..] == [];
    }
  }

  /** Where character `k` of the message lands in the output. */
  function Offset(m: string, k: nat): nat
    requires k <= |m|
  {
    k + 3 * Newlines(m[..k])
  }

  /** The output is the replacements of the message's characters laid end to
      end, in the message's order: character `k` occupies the output from
      `Offset(m, k)` to `Offset(m, k + 1)`, a line feed as `<br>` and any other
      character as itself. */
  lemma RewriteAt(m: string, k: nat)
    requires k < |m|
    ensures Offset(m, k) + |Replacement(m[k])| == Offset(m, k + 1) <= |NewlinesToBreaks(m)|
    ensures m[k] != '\n' ==> NewlinesToBreaks(m)[Offset(m, k)] == m[k]
    ensures m[k] == '\n' ==> NewlinesToBreaks(m)[Offset(m, k)..Offset(m, k + 1)] == Break
  {
    var before, after := m[..k], m[k + 1..];
    assert m == before + [m[k]] + after;
    assert m[..k + 1] == before + [m[k]];
    RewriteAppend(before + [m[k]], after);
    RewriteAppend(before, [m[k]]);
    RewriteLength(before);
    RewriteLength(m);
    assert NewlinesToBreaks([m[k]]) == Replacement(m[k]) by {
      assert [m[k]][1..] == [];
    }
    assert multiset(m[..k + 1]) == multiset(before) + multiset{m[k]};
  }

  /** The inverse rewrite: each `<br>` back to a line feed. */
  function BreaksToNewlines(h: string): string {
    if h == [] then []
    else if |h| >= 4 && h[..4] == Break then "\n" + BreaksToNewlines(h[4..])
    else [h[0]] + BreaksToNewlines(h[1..])
  }

  /** `m` has a literal `<br>` somewhere. */
  predicate ContainsBreak(m: string) {
    exists i: nat | i < |m| :: BreakAt(m, i)
  }

  /** A literal `<br>` starts at position `i` of `m`. */
  predicate BreakAt(m: string, i: nat) {
    i + 4 <= |m| && m[i..i + 4] == Break
  }

  /** The first character of the rewrite: `<` for a line feed, else the
      character itself. */
  lemma RewriteHead(t: string)
    requires t != []
    ensures NewlinesToBreaks(t) == Replacement(t[0]) + NewlinesToBreaks(t[1..])
    ensures NewlinesToBreaks(t)[0] == if t[0] == '\n' then '<' else t[0]
  {
  }

  /** A rewrite starts with `br>` only if the text itself does. */
  lemma RewriteStartsBr(t: string)
    requires !(|t| >= 3 && t[..3] == "br>")
    ensures !(|NewlinesToBreaks(t)| >= 3 && NewlinesToBreaks(t)[..3] == "br>")
  {
    var r := NewlinesToBreaks(t);
    if |r| >= 3 && r[..3] == "br>" {
      assert r[0] == 'b' && r[1] == 'r' && r[2] == '>';
      RewriteHead(t);
      assert t[0] == 'b';
      var t1 := t[1..];
      var r1 := NewlinesToBreaks(t1);
      assert r == "b" + r1;
      assert r1[0] == 'r';
      RewriteHead(t1);
      assert t1[0] == 'r';
      var t2 := t1[1..];
      var r2 := NewlinesToBreaks(t2);
      assert r1 == "r" + r2;
      assert r2[0] == '>';
      RewriteHead(t2);
      assert false;
    }
  }

  /** On a message with no literal `<br>`, the HTML rendition loses nothing:
      the inverse rewrite gives the message back. */
  lemma {:induction false} RewriteRoundTrip(m: string)
    requires !ContainsBreak(m)
    ensures BreaksToNewlines(NewlinesToBreaks(m)) == m
  {
    if m != [] {
      var c, tail := m[0], m[1..];
      assert m == [c] + tail;
      assert !ContainsBreak(tail) by {
        forall i: nat | i < |tail| ensures !BreakAt(tail, i) {
          assert !BreakAt(m, i + 1);
          if i + 4 <= |tail| {
            var here, there := tail[i..i + 4], m[i + 1..i + 5];
            assert forall k | 0 <= k < 4 :: here[k] == there[k];
          }
        }
      }
      var rest := NewlinesToBreaks(tail);
      RewriteRoundTrip(tail);
      var h := Replacement(c) + rest;
      assert NewlinesToBreaks(m) == h;
      if c == '\n' {
        assert h[..4] == Break && h[4..] == rest;
        assert BreaksToNewlines(h) == "\n" + BreaksToNewlines(rest);
      } else {
        assert h[0] == c && h[1..] == rest;
        if |h| >= 4 && h[..4] == Break {
          assert !BreakAt(m, 0);
          RewriteStartsBr(tail);
          assert false;
        }
        assert BreaksToNewlines(h) == [c] + BreaksToNewlines(rest);
      }
    }
  }

  /** The source escapes nothing, so a literal `<br>` in the message and a
      line feed give the same HTML. */
  lemma LiteralBreakIndistinguishable()
    ensures "\n" != Break && NewlinesToBreaks("\n") == NewlinesToBreaks(Break)
  {
    NoNewlineUnchanged(Break);
  }
}
