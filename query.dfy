/**
 * The query part of an API URL: `?k1=v1&k2=v2...` over an ordered option
 * list, every name and value passed through `urlencode`; and its parsing
 * back into the option list, which shows the encoding loses nothing.
 */
module Query {
  import opened UrlEncoding

  /** Options in insertion order: name, value. */
  type Options = seq<(Bytes, Bytes)>

  /** `urlencode(name) . '=' . urlencode(value)`. */
  function EncodedPair(p: (Bytes, Bytes)): Bytes {
    UrlEncode(p.0) + "=" + UrlEncode(p.1)
  }

  /** An encoded pair holds exactly one `=`, between the encoded name and value, and no `&` or `?`. */
  lemma EncodedPairDelimiters(p: (Bytes, Bytes))
    ensures var r := EncodedPair(p); '&' !in r && '?' !in r
    ensures EncodedPair(p) == UrlEncode(p.0) + ['='] + UrlEncode(p.1) && '=' !in UrlEncode(p.0) && '=' !in UrlEncode(p.1)
  {
    UrlEncodeNoDelimiters(p.0);
    UrlEncodeNoDelimiters(p.1);
  }

  /** `&name=value` for one option after the first. */
  function Piece(p: (Bytes, Bytes)): Bytes {
    "&" + EncodedPair(p)
  }

  /** `&name=value` for every option, in order. */
  function Continuation(ps: Options): Bytes {
    if ps == [] then [] else Piece(ps[0]) + Continuation(ps[1..])
  }

  lemma {:induction false} ContinuationHasNoQuestionMark(ps: Options)
    ensures '?' !in Continuation(ps)
  {
    if ps != [] {
      EncodedPairDelimiters(ps[0]);
      ContinuationHasNoQuestionMark(ps[1..]);
    }
  }

  /** Nothing without options; otherwise `?` and the first pair, then `&` and each later pair. */
  function QueryString(options: Options): Bytes {
    if options == [] then [] else "?" + EncodedPair(options[0]) + Continuation(options[1..])
  }

  lemma {:induction false} ContinuationSnoc(ps: Options, p: (Bytes, Bytes))
    ensures Continuation(ps + [p]) == Continuation(ps) + Piece(p)
  {
    if ps == [] {
      assert Continuation([p]) == Piece(p) + [];
    } else {
      assert (ps + [p])[1..] == ps[1..] + [p];
      ContinuationSnoc(ps[1..], p);
      assert Piece(ps[0]) + (Continuation(ps[1..]) + Piece(p)) == (Piece(ps[0]) + Continuation(ps[1..])) + Piece(p);
    }
  }

  // ---------------------------------------------------------------------------
  // Parsing a query string

  /** The pieces of `s` between occurrences of `sep`. */
  function SplitOn(s: Bytes, sep: Byte): (parts: seq<Bytes>)
    ensures |parts| >= 1
  {
    if s == [] then [[]]
    else
      var rest := SplitOn(s[1..], sep);
      if s[0] == sep then [[]] + rest else [[s[0]] + rest[0]] + rest[1..]
  }

  lemma {:induction false} SplitOnNoSeparator(a: Bytes, sep: Byte)
    requires sep !in a
    ensures SplitOn(a, sep) == [a]
  {
    if a != [] {
      SplitOnNoSeparator(a[1..], sep);
      assert [a[0]] + a[1..] == a;
    }
  }

  lemma {:induction false} SplitOnConcat(a: Bytes, b: Bytes, sep: Byte)
    requires sep !in a
    ensures SplitOn(a + [sep] + b, sep) == [a] + SplitOn(b, sep)
  {
    if a == [] {
      assert ([sep] + b)[1..] == b;
    } else {
      assert (a + [sep] + b)[1..] == a[1..] + [sep] + b;
      SplitOnConcat(a[1..], b, sep);
      assert [a[0]] + a[1..] == a;
    }
  }

  /** The part of `s` before the first `sep` and the part after it. */
  function SplitAtFirst(s: Bytes, sep: Byte): (Bytes, Bytes) {
    if s == [] then ([], [])
    else if s[0] == sep then ([], s[1..])
    else
      var (a, b) := SplitAtFirst(s[1..], sep);
      ([s[0]] + a, b)
  }

  lemma {:induction false} SplitAtFirstConcat(a: Bytes, b: Bytes, sep: Byte)
    requires sep !in a
    ensures SplitAtFirst(a + [sep] + b, sep) == (a, b)
  {
    if a == [] {
      assert ([sep] + b)[1..] == b;
    } else {
      assert (a + [sep] + b)[1..] == a[1..] + [sep] + b;
      SplitAtFirstConcat(a[1..], b, sep);
      assert [a[0]] + a[1..] == a;
    }
  }

  /** One `name=value` piece, decoded. */
  function ParsePair(piece: Bytes): (Bytes, Bytes) {
    var (name, value) := SplitAtFirst(piece, '=');
    (UrlDecode(name), UrlDecode(value))
  }

  function ParsePieces(pieces: seq<Bytes>): (ps: Options)
    ensures |ps| == |pieces|
  {
    if pieces == [] then [] else [ParsePair(pieces[0])] + ParsePieces(pieces[1..])
  }

  /** The options a query string (without its leading `?`) carries. */
  function ParseQuery(q: Bytes): Options {
    ParsePieces(SplitOn(q, '&'))
  }

  lemma ParsePairRoundTrip(p: (Bytes, Bytes))
    ensures ParsePair(EncodedPair(p)) == p
  {
    EncodedPairDelimiters(p);
    SplitAtFirstConcat(UrlEncode(p.0), UrlEncode(p.1), '=');
    UrlRoundTrip(p.0);
    UrlRoundTrip(p.1);
  }

  function EncodedPairs(ps: Options): (pieces: seq<Bytes>)
    ensures |pieces| == |ps|
  {
    if ps == [] then [] else [EncodedPair(ps[0])] + EncodedPairs(ps[1..])
  }

  lemma {:induction false} SplitContinuation(x: Bytes, ps: Options)
    requires '&' !in x
    ensures SplitOn(x + Continuation(ps), '&') == [x] + EncodedPairs(ps)
    decreases |ps|
  {
    if ps == [] {
      assert x + [] == x;
      SplitOnNoSeparator(x, '&');
    } else {
      var y, c := EncodedPair(ps[0]), Continuation(ps[1..]);
      EncodedPairDelimiters(ps[0]);
      assert x + Continuation(ps) == x + ['&'] + (y + c) by {
        assert Continuation(ps) == (['&'] + y) + c;
      }
      calc {
        SplitOn(x + Continuation(ps), '&');
        SplitOn(x + ['&'] + (y + c), '&');
        { SplitOnConcat(x, y + c, '&'); }
        [x] + SplitOn(y + c, '&');
        { SplitContinuation(y, ps[1..]); }
        [x] + ([y] + EncodedPairs(ps[1..]));
      }
    }
  }

  lemma {:induction false} ParsePiecesRoundTrip(ps: Options)
    ensures ParsePieces(EncodedPairs(ps)) == ps
  {
    if ps != [] {
      ParsePairRoundTrip(ps[0]);
      ParsePiecesRoundTrip(ps[1..]);
    }
  }

  /** A non-empty query string is `?` followed by the encoded pairs, which hold no `?`. */
  lemma QueryStringShape(options: Options)
    requires options != []
    ensures QueryString(options)[0] == '?'
    ensures QueryString(options)[1..] == EncodedPair(options[0]) + Continuation(options[1..])
    ensures '?' !in QueryString(options)[1..]
  {
    var first, c := EncodedPair(options[0]), Continuation(options[1..]);
    EncodedPairDelimiters(options[0]);
    ContinuationHasNoQuestionMark(options[1..]);
    assert QueryString(options) == ['?'] + (first + c);
    forall i | 0 <= i < |first + c| ensures (first + c)[i] != '?' {
      if i < |first| {
        assert (first + c)[i] == first[i];
      } else {
        assert (first + c)[i] == c[i - |first|];
      }
    }
  }

  /**
   * A query string is empty exactly when there are no options. Otherwise
   * it starts with the only `?` it contains, splitting the rest on `&`
   * gives one piece per option, and decoding the pieces gives back every
   * name and value, in order.
   */
  lemma QueryRoundTrip(options: Options)
    ensures QueryString(options) == [] <==> options == []
    ensures options != [] ==>
              var q := QueryString(options);
              && q[0] == '?'
              && '?' !in q[1..]
              && |SplitOn(q[1..], '&')| == |options|
              && ParseQuery(q[1..]) == options
  {
    if options != [] {
      QueryStringShape(options);
      EncodedPairDelimiters(options[0]);
      SplitContinuation(EncodedPair(options[0]), options[1..]);
      ParsePiecesRoundTrip(options);
    }
  }
}
