/** The command builders of command.c: each appends one command to a buffer, piece by piece. */
module Builders {
  import opened Bytes
  import opened Windows
  import opened Commands

  // ---- what a series of additions does -----------------------------------------------------------

  predicate Small(pieces: seq<seq<byte>>) {
    forall p <- pieces :: |p| < TWO_31
  }

  /** One `buffer_add` after the other; no builder looks at their results. */
  function AddAll(w: Window, pieces: seq<seq<byte>>): Window
    requires Small(pieces)
    decreases |pieces|
  {
    if pieces == [] then w else AddAll(Windows.Add(w, pieces[0]).0, pieces[1..])
  }

  function Flat(pieces: seq<seq<byte>>): seq<byte> {
    if pieces == [] then [] else pieces[0] + Flat(pieces[1..])
  }

  lemma {:induction false} AddAllOfTwo(w: Window, a: seq<seq<byte>>, b: seq<seq<byte>>)
    requires Small(a) && Small(b)
    ensures AddAll(w, a + b) == AddAll(AddAll(w, a), b)
    decreases |a|
  {
    if a == [] {
      assert a + b == b;
    } else {
      AddAllOfTwo(Windows.Add(w, a[0]).0, a[1..], b);
      assert (a + b)[1..] == a[1..] + b;
    }
  }

  lemma {:induction false} FlatOfTwo(a: seq<seq<byte>>, b: seq<seq<byte>>)
    ensures Flat(a + b) == Flat(a) + Flat(b)
  {
    if a == [] {
      assert a + b == b;
    } else {
      FlatOfTwo(a[1..], b);
      assert (a + b)[1..] == a[1..] + b;
    }
  }

  lemma {:induction false} AddAllIsNoLonger(w: Window, pieces: seq<seq<byte>>)
    requires Small(pieces)
    ensures |AddAll(w, pieces).bytes| <= |w.bytes| + |Flat(pieces)|
    decreases |pieces|
  {
    if pieces != [] {
      AddAllIsNoLonger(Windows.Add(w, pieces[0]).0, pieces[1..]);
    }
  }

  /** None of the additions is refused, but for those that add nothing. */
  predicate Taken(w: Window, pieces: seq<seq<byte>>)
    requires Small(pieces)
    decreases |pieces|
  {
    pieces == [] ||
    var (w', ok) := Windows.Add(w, pieces[0]);
    (ok || pieces[0] == []) && Taken(w', pieces[1..])
  }

  /** A series of additions is kept whole exactly when none of them is refused: what is refused is missing. */
  lemma {:induction false} WholeIffTaken(w: Window, pieces: seq<seq<byte>>)
    requires Small(pieces)
    ensures AddAll(w, pieces).bytes == w.bytes + Flat(pieces) <==> Taken(w, pieces)
    ensures |AddAll(w, pieces).bytes| == |w.bytes| + |Flat(pieces)| <==> Taken(w, pieces)
    decreases |pieces|
  {
    if pieces == [] {
      assert w.bytes + [] == w.bytes;
    } else {
      var (w', ok) := Windows.Add(w, pieces[0]);
      WholeIffTaken(w', pieces[1..]);
      AddAllIsNoLonger(w', pieces[1..]);
      Assoc(w.bytes, pieces[0], Flat(pieces[1..]));
      if !ok {
        assert |Flat(pieces)| == |pieces[0]| + |Flat(pieces[1..])|;
        assert pieces[0] == [] ==> w.bytes + pieces[0] == w.bytes;
      }
    }
  }

  /** Without a capacity nothing is refused. */
  lemma {:induction false} UnboundedTakesAll(w: Window, pieces: seq<seq<byte>>)
    requires Small(pieces) && w.capacity == 0
    ensures Taken(w, pieces)
    decreases |pieces|
  {
    if pieces != [] {
      UnboundedTakesAll(Windows.Add(w, pieces[0]).0, pieces[1..]);
    }
  }

  /** A buffer that cannot grow (and is below the sizes of `HugeBufferRefuses`). */
  predicate Fixed(w: Window) {
    0 < w.capacity < 2 * w.length && w.length <= TWO_31
  }

  lemma FixedAdd(w: Window, p: seq<byte>)
    requires Fixed(w) && |p| < TWO_31
    ensures Windows.Add(w, p).1 <==> |w.bytes| + |p| <= w.length
    ensures var w' := Windows.Add(w, p).0;
      && Fixed(w') && w'.length == w.length
      && w'.bytes == if |w.bytes| + |p| <= w.length then w.bytes + p else w.bytes
  {
    var x := Shortfall(w, |p|);
    assert ToInt32(x) == x;
  }

  /** In a fixed buffer nothing is refused exactly when all of it fits.  The default configuration is of this kind,
      its capacities being the initial lengths. */
  lemma {:induction false} FixedTakesWhatFits(w: Window, pieces: seq<seq<byte>>)
    requires Small(pieces) && Fixed(w)
    ensures Fixed(AddAll(w, pieces)) && AddAll(w, pieces).length == w.length
    ensures Taken(w, pieces) <==> |w.bytes| + |Flat(pieces)| <= w.length
    decreases |pieces|
  {
    if pieces != [] {
      FixedAdd(w, pieces[0]);
      FixedTakesWhatFits(Windows.Add(w, pieces[0]).0, pieces[1..]);
    }
  }

  // ---- the pieces of a command -------------------------------------------------------------------

  datatype Param = IntParam(n: cint) | CharParam(text: cstring)

  function Text(p: Param): seq<byte> {
    match p case IntParam(n) => Decimal(n) case CharParam(text) => text
  }

  function Texts(params: seq<Param>): seq<seq<byte>> {
    if params == [] then [] else [Text(params[0])] + Texts(params[1..])
  }

  function WordPieces(words: seq<seq<byte>>): seq<seq<byte>> {
    if words == [] then [] else [[SPACE], words[0]] + WordPieces(words[1..])
  }

  function BodyPieces(body: Option<seq<byte>>): seq<seq<byte>> {
    match body case None => [] case Some(b) => [Size32(|b|), b]
  }

  function LinePieces(words: seq<seq<byte>>, body: Option<seq<byte>>): seq<seq<byte>>
    requires words != []
  {
    [words[0]] + WordPieces(words[1..]) + [[NEWLINE]] + BodyPieces(body)
  }

  function Pieces(c: Command): seq<seq<byte>> {
    LinePieces(Words(c), Body(c))
  }

  lemma {:induction false} FlatWords(words: seq<seq<byte>>)
    requires words != []
    ensures words[0] + Flat(WordPieces(words[1..])) == Join(words)
    decreases |words|
  {
    if |words| > 1 {
      var rest := words[1..];
      FlatWords(rest);
      assert WordPieces(rest) == [[SPACE]] + ([rest[0]] + WordPieces(rest[1..]));
      assert Flat([rest[0]] + WordPieces(rest[1..])) == Join(rest) by {
        assert ([rest[0]] + WordPieces(rest[1..]))[1..] == WordPieces(rest[1..]);
      }
      assert WordPieces(rest)[1..] == [rest[0]] + WordPieces(rest[1..]);
      assert words[0] + ([SPACE] + Join(rest)) == words[0] + [SPACE] + Join(rest);
    }
  }

  lemma FlatBody(body: Option<seq<byte>>)
    ensures Flat(BodyPieces(body)) == if body.Some? then Sized(body.value) else []
  {
    if body.Some? {
      var b := body.value;
      assert BodyPieces(body)[1..] == [b];
      assert Flat([b]) == b + Flat([b][1..]);
    }
  }

  /** Together the pieces are the encoding of the command. */
  lemma FlatPieces(c: Command)
    ensures Flat(Pieces(c)) == Encode(c)
  {
    var words := Words(c);
    var line := [words[0]] + WordPieces(words[1..]);
    FlatWords(words);
    assert line[1..] == WordPieces(words[1..]);
    FlatBody(Body(c));
    FlatOfTwo(line, [[NEWLINE]]);
    assert Flat([[NEWLINE]]) == [NEWLINE] + Flat([[NEWLINE]][1..]);
    FlatOfTwo(line + [[NEWLINE]], BodyPieces(Body(c)));
  }

  /** The buffer after building `c` in it. */
  function Built(w: Window, c: Command): Window
    requires Small(Pieces(c))
  {
    AddAll(w, Pieces(c))
  }

  /** Whatever the buffer, a builder leaves exactly its command if and only if no piece of it is refused. */
  lemma BuiltIffTaken(w: Window, c: Command)
    requires Small(Pieces(c))
    ensures Built(w, c).bytes == w.bytes + Encode(c) <==> Taken(w, Pieces(c))
    ensures |Built(w, c).bytes| == |w.bytes| + |Encode(c)| <==> Taken(w, Pieces(c))
  {
    FlatPieces(c);
    WholeIffTaken(w, Pieces(c));
  }

  /** What that means for a buffer that is unbounded, and for one that cannot grow: there, that the command fits. */
  lemma BuiltIffItFits(w: Window, c: Command)
    requires Small(Pieces(c))
    ensures w.capacity == 0 ==> Built(w, c).bytes == w.bytes + Encode(c)
    ensures Fixed(w) ==> (Built(w, c).bytes == w.bytes + Encode(c) <==> |w.bytes| + |Encode(c)| <= w.length)
  {
    FlatPieces(c);
    BuiltIffTaken(w, c);
    if w.capacity == 0 {
      UnboundedTakesAll(w, Pieces(c));
    } else if Fixed(w) {
      FixedTakesWhatFits(w, Pieces(c));
    }
  }

  /** The pieces in front of the body. */
  function HeadPieces(words: seq<seq<byte>>, bodyLength: nat): seq<seq<byte>>
    requires words != []
  {
    [words[0]] + WordPieces(words[1..]) + [[NEWLINE], Size32(bodyLength)]
  }

  lemma FlatHead(words: seq<seq<byte>>, n: nat)
    requires words != []
    ensures Flat(HeadPieces(words, n)) == Join(words) + [NEWLINE] + Size32(n)
  {
    var line := [words[0]] + WordPieces(words[1..]);
    FlatWords(words);
    assert line[1..] == WordPieces(words[1..]);
    var end := [[NEWLINE], Size32(n)];
    FlatOfTwo(line, end);
    assert end[1..] == [Size32(n)];
    assert Flat([Size32(n)]) == Size32(n) + Flat([Size32(n)][1..]);
  }

  /** A command with a body is its head and then the body. */
  lemma HeadAndBody(c: Command)
    requires Body(c).Some?
    ensures var body := Body(c).value; var head := HeadPieces(Words(c), |body|);
      && Pieces(c) == head + [body]
      && Flat(head) == Join(Words(c)) + [NEWLINE] + Size32(|body|)
      && |Encode(c)| == |Flat(head)| + |body|
  {
    FlatHead(Words(c), |Body(c).value|);
  }

  /** A refused piece leaves a hole in the command, not a shorter command: when the body is the only piece that is
      refused, the line and the length stay and nothing follows them. */
  lemma RefusedBodyLeavesItsLength(w: Window, c: Command)
    requires Small(Pieces(c)) && Body(c).Some?
    requires var head := HeadPieces(Words(c), |Body(c).value|);
      && Small(head) && Taken(w, head) && !Windows.Add(AddAll(w, head), Body(c).value).1
    ensures Built(w, c).bytes == w.bytes + (Join(Words(c)) + [NEWLINE] + Size32(|Body(c).value|))
  {
    var body := Body(c).value;
    var head := HeadPieces(Words(c), |body|);
    HeadAndBody(c);
    AddAllOfTwo(w, head, [body]);
    WholeIffTaken(w, head);
  }

  lemma FixedRefusesLast(w: Window, head: seq<seq<byte>>, last: seq<byte>)
    requires Small(head) && |last| < TWO_31 && Fixed(w)
    ensures Taken(w, head) && !Windows.Add(AddAll(w, head), last).1 <==>
      |w.bytes| + |Flat(head)| <= w.length < |w.bytes| + |Flat(head)| + |last|
  {
    FixedTakesWhatFits(w, head);
    WholeIffTaken(w, head);
    FixedAdd(AddAll(w, head), last);
  }

  /** In a fixed buffer that happens exactly to the commands that are too long by a part of their body. */
  lemma FixedRefusesBody(w: Window, c: Command)
    requires Small(Pieces(c)) && Fixed(w) && Body(c).Some?
    ensures var body := Body(c).value; var head := HeadPieces(Words(c), |body|);
      && Small(head)
      && (Taken(w, head) && !Windows.Add(AddAll(w, head), body).1 <==>
            |w.bytes| + |Encode(c)| - |body| <= w.length < |w.bytes| + |Encode(c)|)
  {
    var body := Body(c).value;
    var head := HeadPieces(Words(c), |body|);
    HeadAndBody(c);
    assert forall i :: 0 <= i < |head| ==> head[i] == Pieces(c)[i];
    FixedRefusesLast(w, head, body);
  }
}
