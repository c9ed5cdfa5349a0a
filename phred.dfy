/** Phred quality scores in the Sanger FASTQ encoding (Phred+33): the character `!`
    stands for score 0 and each later code point for one more. */
module Phred {

  /** The character that encodes Phred score 0. */
  const ZeroChar: char := '!'

  /** The highest Phred+33 character that is printable ASCII (`~`, score 93). */
  const MaxScore: int := 93

  /** `ord(c) - ord('!')`. No clamping: a character below `!` gives a negative score. */
  function PhredScore(c: char): (q: int) {
    c as int - ZeroChar as int
  }

  /** The Phred+33 character for a score in the printable range 0..93. Not part of the
      decoder itself; it is the inverse the decoder is checked against. */
  function PhredChar(q: int): (c: char)
    requires 0 <= q <= MaxScore
    ensures '!' <= c <= '~'
    ensures PhredScore(c) == q
  {
    (q + ZeroChar as int) as char
  }

  /** Decoding then encoding gives back every printable quality character. */
  lemma CharRoundTrip(c: char)
    requires '!' <= c <= '~'
    ensures 0 <= PhredScore(c) <= MaxScore
    ensures PhredChar(PhredScore(c)) == c
  {
  }

  /** Encoding then decoding gives back every score in the printable range. */
  lemma ScoreRoundTrip(q: int)
    requires 0 <= q <= MaxScore
    ensures PhredScore(PhredChar(q)) == q
  {
  }

  /** Decoding preserves the order of characters in both directions, so different
      characters decode to different scores. */
  lemma PhredScoreOrder(a: char, b: char)
    ensures a < b <==> PhredScore(a) < PhredScore(b)
    ensures a == b <==> PhredScore(a) == PhredScore(b)
  {
  }

  /** The score is negative exactly for the characters below `!` (space, tab, ...). */
  lemma NegativeScores(c: char)
    ensures PhredScore(c) < 0 <==> c < '!'
  {
  }

  /** Worked values of the decoder. */
  lemma PhredScoreExamples()
    ensures PhredScore('!') == 0
    ensures PhredScore('"') == 1
    ensures PhredScore('#') == 2
    ensures PhredScore('+') == 10
    ensures PhredScore('I') == 40
    ensures PhredScore('~') == 93
    ensures PhredScore(' ') == -1
  {
  }
}
