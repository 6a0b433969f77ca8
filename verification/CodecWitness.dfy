/** The laws assumed of the PEM and X.509 libraries can be met: a small line
    format that meets them. */
module CodecWitness {
  import opened Prelude
  import opened Text
  import opened CertificateArtifacts

  const BASE := 0x4E00

  function CharOf(b: Byte): char {
    (BASE + b as int) as char
  }

  function ByteOf(c: char): Byte {
    (c as int % 256) as Byte
  }

  function Body(d: Der): string {
    BEGIN + seq(|d|, i requires 0 <= i < |d| => CharOf(d[i]))
  }

  function Line(s: string): string {
    if s == "" || s[0] == '\n' then "" else [s[0]] + Line(s[1..])
  }

  function AfterLine(s: string): string {
    if s == "" then "" else if s[0] == '\n' then s[1..] else AfterLine(s[1..])
  }

  function Decode(t: string): Option<(Block, string)> {
    if !(BEGIN <= t) then None
    else
      var line := Line(t[|BEGIN|..]);
      var bytes := seq(|line|, i requires 0 <= i < |line| => ByteOf(line[i]));
      Some((Block(CERTIFICATE, false, bytes), AfterLine(t[|BEGIN|..])))
  }

  lemma {:induction false} LineOfConcat(a: string, tail: string)
    requires '\n' !in a
    ensures Line(a) == a && AfterLine(a) == ""
    ensures Line(a + ("\n" + tail)) == a && AfterLine(a + ("\n" + tail)) == tail
  {
    if a == "" {
      assert a + ("\n" + tail) == "\n" + tail;
      assert ("\n" + tail)[1..] == tail;
    } else {
      assert (a + ("\n" + tail))[1..] == a[1..] + ("\n" + tail);
      LineOfConcat(a[1..], tail);
    }
  }

  lemma {:induction false} AfterLineShortens(s: string)
    ensures |AfterLine(s)| <= |s|
  {
    if s != "" && s[0] != '\n' {
      AfterLineShortens(s[1..]);
    }
  }

  lemma DecodeBody(d: Der, tail: string)
    ensures Decode(Body(d)) == Some((Block(CERTIFICATE, false, d), ""))
    ensures Decode(Body(d) + ("\n" + tail)) == Some((Block(CERTIFICATE, false, d), tail))
  {
    var chars := seq(|d|, i requires 0 <= i < |d| => CharOf(d[i]));
    assert Body(d)[|BEGIN|..] == chars && Body(d)[..|BEGIN|] == BEGIN;
    var t := Body(d) + ("\n" + tail);
    assert t[..|BEGIN|] == BEGIN && t[|BEGIN|..] == chars + ("\n" + tail);
    LineOfConcat(chars, tail);
    assert seq(|chars|, i requires 0 <= i < |chars| => ByteOf(chars[i])) == d;
  }

  lemma LawsCanBeMet() returns (codec: Codec)
    ensures Lawful(codec)
  {
    codec := Codec(d => Body(d), t => Decode(t), d => Some(Cert(d, [], 0, OtherKey)));
    forall d ensures BEGIN <= codec.body(d) && !IsSpace(codec.body(d)[|codec.body(d)| - 1]) {
      assert BEGIN[|BEGIN| - 1] == '-';
      assert Body(d)[..|BEGIN|] == BEGIN;
    }
    forall d ensures codec.decode(codec.body(d)) == Some((Block(CERTIFICATE, false, d), "")) {
      DecodeBody(d, "");
    }
    forall d, tail
      ensures codec.decode(codec.body(d) + ("\n" + tail)) == Some((Block(CERTIFICATE, false, d), tail))
    {
      DecodeBody(d, tail);
    }
    forall t | codec.decode(t).Some? ensures |codec.decode(t).value.1| < |t| {
      AfterLineShortens(t[|BEGIN|..]);
    }
  }
}
