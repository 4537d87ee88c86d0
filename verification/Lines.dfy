/** Lines of text as both C filters read them. */
module Lines {
  function Spaces(n: nat): string {
    seq(n, i => ' ')
  }

  /** The part of a raw line before its first CR or LF. */
  function UpToEol(raw: string): string {
    if raw == "" || raw[0] == '\n' || raw[0] == '\r' then "" else [raw[0]] + UpToEol(raw[1..])
  }

  lemma {:induction false} UpToEolIs(raw: string, i: nat)
    requires i <= |raw|
    requires forall k :: 0 <= k < i ==> raw[k] != '\n' && raw[k] != '\r'
    requires i < |raw| ==> raw[i] == '\n' || raw[i] == '\r'
    ensures UpToEol(raw) == raw[..i]
  {
    if i > 0 {
      UpToEolIs(raw[1..], i - 1);
      assert raw[..i] == [raw[0]] + raw[1..][..i - 1];
    }
  }

  lemma {:induction false} UpToEolPrefix(raw: string)
    ensures |UpToEol(raw)| <= |raw| && UpToEol(raw) == raw[..|UpToEol(raw)|]
  {
    if raw != "" && raw[0] != '\n' && raw[0] != '\r' {
      UpToEolPrefix(raw[1..]);
    }
  }

  /** The length of the quote prefix: a run of '>' each with at most one space after it. */
  function QuoteLen(s: string): (q: nat)
    ensures q <= |s|
  {
    if s == "" || s[0] != '>' then 0
    else if |s| > 1 && s[1] == ' ' then 2 + QuoteLen(s[2..])
    else 1 + QuoteLen(s[1..])
  }

  /** Position `k` goes on a quote prefix: a '>', or the space after one. */
  predicate Quotes(s: string, k: nat)
    requires k < |s|
  {
    s[k] == '>' || (s[k] == ' ' && k > 0 && s[k - 1] == '>')
  }

  /** The quote prefix is the longest that is made of such positions. */
  lemma {:induction false} QuoteLenIs(s: string)
    ensures var q := QuoteLen(s);
      (forall k :: 0 <= k < q ==> Quotes(s, k)) && (q < |s| ==> !Quotes(s, q))
    decreases |s|
  {
    if s != "" && s[0] == '>' {
      var n := if |s| > 1 && s[1] == ' ' then 2 else 1;
      QuoteLenIs(s[n..]);
      var q := QuoteLen(s);
      forall k | n <= k < q ensures Quotes(s, k) {
        assert Quotes(s[n..], k - n);
      }
    }
  }

  /** There is only one such length. */
  lemma QuotesEndAt(s: string, q: nat)
    requires q <= |s| && (forall k :: 0 <= k < q ==> Quotes(s, k)) && (q < |s| ==> !Quotes(s, q))
    ensures QuoteLen(s) == q
  {
    QuoteLenIs(s);
    var p := QuoteLen(s);
    if p < q || q < p {
      assert false;
    }
  }
}
