/**
 * Currency markers and spaces anywhere in an amount cell. A cell such as "1,200 AED",
 * "₹1,200", "AED  150" or "1 200.50" is described as the characters of an amount
 * interleaved with noise: single spaces, rupee signs and the codes "AED" and "INR" in
 * any case. toNumber deletes all of the noise and reads the amount characters alone.
 */
module MarkerLaws {
  import opened Wrappers
  import opened Seqs
  import opened Text
  import opened Amounts
  import opened AmountLaws

  /** One piece of a cell: a character of the amount, or a stretch of noise. */
  datatype Piece = Keep(c: char) | Drop(noise: string)

  /** The noise toNumber deletes: one space, one rupee sign, or a currency code. */
  predicate IsNoise(m: string) {
    || (|m| == 1 && IsSpace(m[0]))
    || m == [Rupee]
    || (|m| == 3 && (Lower(m) == "aed" || Lower(m) == "inr"))
  }

  /** An amount character that can neither be deleted nor start a currency code. */
  predicate IsCleanChar(c: char) {
    !IsSpace(c) && c != Rupee && LowerChar(c) != 'a' && LowerChar(c) != 'i'
  }

  predicate WellFormed(ps: seq<Piece>) {
    forall i :: 0 <= i < |ps| ==> if ps[i].Keep? then IsCleanChar(ps[i].c) else IsNoise(ps[i].noise)
  }

  function Spelling(p: Piece): string {
    match p
    case Keep(c) => [c]
    case Drop(m) => m
  }

  /** The text of the cell the pieces spell out. */
  function Typed(ps: seq<Piece>): string {
    if ps == [] then [] else Spelling(ps[0]) + Typed(ps[1..])
  }

  /** The amount characters alone, in order. */
  function Kept(ps: seq<Piece>): (r: string)
    ensures |r| <= |ps|
  {
    if ps == [] then [] else (if ps[0].Keep? then [ps[0].c] else []) + Kept(ps[1..])
  }

  /** A piece that is one spelling of the currency code whose lower-case form is `code`. */
  predicate IsCode(p: Piece, code: string) {
    p.Drop? && |p.noise| == |code| && Lower(p.noise) == code
  }

  /** No character of the piece lower-cases to `first`. */
  predicate Avoids(p: Piece, first: char) {
    forall j :: 0 <= j < |Spelling(p)| ==> LowerChar(Spelling(p)[j]) != first
  }

  function WithoutCode(ps: seq<Piece>, code: string): (r: seq<Piece>)
  {
    Filter(ps, p => !IsCode(p, code))
  }

  /** Deleting drops only noise, so the amount characters stay as they were. */
  lemma {:induction false} KeptWithout(ps: seq<Piece>, code: string)
    ensures Kept(WithoutCode(ps, code)) == Kept(ps)
    decreases |ps|
  {
    if ps != [] {
      KeptWithout(ps[1..], code);
      if !IsCode(ps[0], code) {
        var r := WithoutCode(ps[1..], code);
        assert WithoutCode(ps, code) == [ps[0]] + r;
        assert ([ps[0]] + r)[1..] == r;
      }
    }
  }

  /** One code-deleting pass over a cell in which an occurrence can only start at a piece
      spelling that code: exactly those pieces disappear. */
  lemma {:induction false} RemoveCodePass(ps: seq<Piece>, pat: string)
    requires |pat| > 0
    requires forall i :: 0 <= i < |ps| ==> IsCode(ps[i], Lower(pat)) || Avoids(ps[i], LowerChar(pat[0]))
    ensures RemoveCaseless(Typed(ps), pat) == Typed(WithoutCode(ps, Lower(pat)))
    decreases |ps|
  {
    if ps != [] {
      var rest := ps[1..];
      RemoveCodePass(rest, pat);
      if IsCode(ps[0], Lower(pat)) {
        RemoveCaselessLeading(Spelling(ps[0]), Typed(rest), pat);
      } else {
        RemoveCaselessSkip(Spelling(ps[0]), Typed(rest), pat);
        var r := WithoutCode(rest, Lower(pat));
        assert WithoutCode(ps, Lower(pat)) == [ps[0]] + r;
        assert ([ps[0]] + r)[1..] == r;
      }
    }
  }

  /** Every well-formed piece that is not an "AED" is free of the letter 'a'. */
  lemma AedPassApplies(ps: seq<Piece>)
    requires WellFormed(ps)
    ensures forall i :: 0 <= i < |ps| ==> IsCode(ps[i], Lower("AED")) || Avoids(ps[i], LowerChar("AED"[0]))
  {
    CodeLiterals();
    forall i | 0 <= i < |ps|
      ensures IsCode(ps[i], "aed") || Avoids(ps[i], 'a')
    {
      NoiseAvoids(ps[i], "aed", "inr", 'a');
    }
  }

  /** After the "AED" pass every piece that is not an "INR" is free of the letter 'i'. */
  lemma InrPassApplies(ps: seq<Piece>)
    requires WellFormed(ps)
    ensures forall i :: 0 <= i < |WithoutCode(ps, "aed")| ==>
      IsCode(WithoutCode(ps, "aed")[i], Lower("INR")) || Avoids(WithoutCode(ps, "aed")[i], LowerChar("INR"[0]))
  {
    CodeLiterals();
    var qs := WithoutCode(ps, "aed");
    FilterContents(ps, p => !IsCode(p, "aed"));
    forall i | 0 <= i < |qs|
      ensures IsCode(qs[i], "inr") || Avoids(qs[i], 'i')
    {
      var j :| 0 <= j < |ps| && ps[j] == qs[i];
      NoiseAvoids(ps[j], "inr", "aed", 'i');
    }
  }

  /** A well-formed piece is one spelling of `code`, or of `other`, or avoids `first`, the
      first letter of `code`, which `other` does not contain. */
  lemma NoiseAvoids(p: Piece, code: string, other: string, first: char)
    requires (code == "aed" && other == "inr" && first == 'a') || (code == "inr" && other == "aed" && first == 'i')
    requires if p.Keep? then IsCleanChar(p.c) else IsNoise(p.noise)
    ensures IsCode(p, code) || Avoids(p, first)
  {
    if p.Drop? && |p.noise| == 3 && Lower(p.noise) == other {
      forall j | 0 <= j < 3
        ensures LowerChar(p.noise[j]) != first
      {
        assert LowerChar(p.noise[j]) == Lower(p.noise)[j];
      }
    }
  }

  /** Once the codes are gone, the rupee and space filters leave the amount characters. */
  lemma {:induction false} StripLeftovers(ps: seq<Piece>)
    requires WellFormed(ps)
    requires forall i :: 0 <= i < |ps| ==> !IsCode(ps[i], "aed") && !IsCode(ps[i], "inr")
    ensures Filter(Filter(Typed(ps), c => c != Rupee), c => !IsSpace(c)) == Kept(ps)
    decreases |ps|
  {
    if ps != [] {
      var x, y := Spelling(ps[0]), Typed(ps[1..]);
      StripLeftovers(ps[1..]);
      FilterAppend(x, y, c => c != Rupee);
      FilterAppend(Filter(x, c => c != Rupee), Filter(y, c => c != Rupee), c => !IsSpace(c));
      assert Filter(Filter(x, c => c != Rupee), c => !IsSpace(c)) == if ps[0].Keep? then [ps[0].c] else [];
    }
  }

  lemma WithoutBothCodes(ps: seq<Piece>)
    requires WellFormed(ps)
    ensures var qs := WithoutCode(WithoutCode(ps, "aed"), "inr");
      && WellFormed(qs)
      && (forall i :: 0 <= i < |qs| ==> !IsCode(qs[i], "aed") && !IsCode(qs[i], "inr"))
      && Kept(qs) == Kept(ps)
  {
    var ps1 := WithoutCode(ps, "aed");
    var qs := WithoutCode(ps1, "inr");
    FilterContents(ps, p => !IsCode(p, "aed"));
    FilterContents(ps1, p => !IsCode(p, "inr"));
    forall i | 0 <= i < |qs|
      ensures !IsCode(qs[i], "aed") && (if qs[i].Keep? then IsCleanChar(qs[i].c) else IsNoise(qs[i].noise))
    {
      var j :| 0 <= j < |ps1| && ps1[j] == qs[i];
    }
    KeptWithout(ps, "aed");
    KeptWithout(ps1, "inr");
  }

  /** Stripping the markers of a decorated cell leaves exactly its amount characters. */
  lemma StripDecorated(ps: seq<Piece>)
    requires WellFormed(ps)
    ensures StripMarkers(Typed(ps)) == Kept(ps)
  {
    CodeLiterals();
    var ps1 := WithoutCode(ps, "aed");
    AedPassApplies(ps);
    RemoveCodePass(ps, "AED");
    InrPassApplies(ps);
    RemoveCodePass(ps1, "INR");
    WithoutBothCodes(ps);
    StripLeftovers(WithoutCode(ps1, "inr"));
  }

  lemma KeptClean(ps: seq<Piece>)
    requires WellFormed(ps)
    ensures CleanText(Kept(ps))
    decreases |ps|
  {
    if ps != [] {
      KeptClean(ps[1..]);
    }
  }

  /** Currency codes and rupee signs before, between or after the amount characters, with or
      without spaces, and spaces inside the amount, do not change what toNumber reads:
      "1,200 AED", "₹1,200", "AED  150" and "1 200.50" read as "1,200", "1,200", "150"
      and "1200.50". */
  lemma ToNumberDecorated(ps: seq<Piece>)
    requires WellFormed(ps)
    ensures ToNumber(Some(Typed(ps))) == ToNumber(Some(Kept(ps)))
  {
    StripDecorated(ps);
    KeptClean(ps);
    StripClean(Kept(ps));
    StripDecides(Typed(ps), Kept(ps));
  }
}
