/**
 Text as a sequence of code points, lone surrogates included, and how Python's text mode reads it.
 */
module Text {
  type text = seq<nat>

  const LF: nat := 10
  const CR: nat := 13

  /** Universal newlines: CR LF and CR become LF. */
  function Translate(raw: text): text {
    if raw == [] then []
    else if raw[0] != CR then [raw[0]] + Translate(raw[1..])
    else if |raw| > 1 && raw[1] == LF then [LF] + Translate(raw[2..])
    else [LF] + Translate(raw[1..])
  }

  lemma {:induction false} TranslateNoCr(raw: text)
    ensures CR !in Translate(raw)
    decreases |raw|
  {
    if raw != [] {
      if raw[0] != CR { TranslateNoCr(raw[1..]); }
      else if |raw| > 1 && raw[1] == LF { TranslateNoCr(raw[2..]); }
      else { TranslateNoCr(raw[1..]); }
    }
  }

  lemma {:induction false} TranslateIdentity(t: text)
    requires CR !in t
    ensures Translate(t) == t
    decreases |t|
  {
    if t != [] {
      assert t[0] in t && forall c :: c in t[1..] ==> c in t;
      TranslateIdentity(t[1..]);
    }
  }

  /** Carriage return 13 followed by line feed 10, or alone, becomes 10; everything else stays. */
  lemma TranslateMeaning(c: nat, t: text)
    ensures Translate([]) == []
    ensures c != 13 ==> Translate([c] + t) == [c] + Translate(t)
    ensures t == [] || t[0] != 10 ==> Translate([13] + t) == [10] + Translate(t)
    ensures t != [] && t[0] == 10 ==> Translate([13] + t) == [10] + Translate(t[1..])
  {
    assert ([c] + t)[1..] == t && ([13] + t)[1..] == t;
    if t != [] { assert ([13] + t)[2..] == t[1..]; }
  }
}
