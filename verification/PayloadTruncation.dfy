/** Fitting a DingTalk payload into its byte budget, by binary search for the cut. */
module PayloadTruncation {
  import opened Base
  import opened PayloadModel

  method TruncateUTF8ByBytes(text: seq<Byte>, limit: int) returns (r: seq<Byte>)
    ensures r == text[..CutAt(text, limit)]
  {
    if limit <= 0 {
      return [];
    }
    if |text| <= limit {
      return text;
    }
    var n := limit;
    while n > 0 && n < |text| && !RuneStart(text[n])
      invariant 0 <= n <= limit < |text| && CutAt(text, n) == CutAt(text, limit)
    {
      n := n - 1;
    }
    r := text[..n];
  }

  /** The longest aligned, newline-trimmed prefix with the notice that fits; no result
      exactly when the notice alone does not fit. */
  method TruncatePayloadString(content: seq<Byte>, p: Payload) returns (best: seq<Byte>, ok: bool)
    ensures ok <==> EncodedSize(WithBody(p, NOTICE)) <= MAX_PAYLOAD
    ensures ok ==> IsBestCut(p, content, best)
  {
    hide TrimNewlines, EncodedSize, WithBody, CutAt;
    var candidate := TrimNewlines(content);
    best := NOTICE;
    if EncodedSize(WithBody(p, best)) > MAX_PAYLOAD {
      return [], false;
    }
    NothingLeft(candidate);
    var low, high := 0, |candidate|;
    while low <= high
      invariant 0 <= low <= high + 1 <= |candidate| + 1
      invariant best == Shortened(candidate, Max(low - 1, 0)) && EncodedSize(WithBody(p, best)) <= MAX_PAYLOAD
      invariant forall c :: high < c <= |candidate| ==> !FitsAt(p, candidate, c)
    {
      var mid := (low + high) / 2;
      var cut := TruncateUTF8ByBytes(candidate, mid);
      var truncated := TrimNewlines(cut) + NOTICE;
      assert truncated == Shortened(candidate, mid);
      if EncodedSize(WithBody(p, truncated)) <= MAX_PAYLOAD {
        best := truncated;
        low := mid + 1;
        continue;
      }
      forall c | mid <= c <= |candidate| ensures !FitsAt(p, candidate, c) {
        if FitsAt(p, candidate, c) { EarlierCutFits(p, candidate, mid, c); }
      }
      high := mid - 1;
    }
    ok := true;
    BestIsAligned(candidate, Max(low - 1, 0));
    forall n: nat | n <= |candidate| && Aligned(candidate, n)
                    && EncodedSize(WithBody(p, TrimNewlines(candidate[..n]) + NOTICE)) <= MAX_PAYLOAD
      ensures |TrimNewlines(candidate[..n]) + NOTICE| <= |best|
    {
      AlignedIsItsCut(candidate, n);
      assert FitsAt(p, candidate, n);
      ShortenedIsMonotone(candidate, n, Max(low - 1, 0));
    }
  }

  lemma NothingLeft(candidate: seq<Byte>)
    ensures Shortened(candidate, 0) == NOTICE
  {
    assert candidate[..0] == [];
  }

  lemma BestIsAligned(candidate: seq<Byte>, c: nat)
    ensures exists n: nat | n <= |candidate| ::
              Aligned(candidate, n) && Shortened(candidate, c) == TrimNewlines(candidate[..n]) + NOTICE
  {
    CutIsLastAligned(candidate, c);
    assert Shortened(candidate, c) == TrimNewlines(candidate[..CutAt(candidate, c)]) + NOTICE;
  }

  lemma AlignedIsItsCut(candidate: seq<Byte>, n: nat)
    requires n <= |candidate| && Aligned(candidate, n)
    ensures CutAt(candidate, n) == n
  {
    CutIsLastAligned(candidate, n);
  }

  lemma BestCutFits(p: Payload, content: seq<Byte>, best: seq<Byte>)
    requires IsBestCut(p, content, best)
    ensures EncodedSize(WithBody(p, best)) <= MAX_PAYLOAD
  {
  }

  datatype Marshalled = Marshalled(payload: Payload) | Exceeds | ExceedsAfterTruncation

  /** What is sent fits the budget.  A payload that fits is sent as it is, another with
      its body cut as little as possible; the error
      after truncation never occurs, and the other one only when not even the notice
      fits or the payload has no body to cut. */
  method MarshalPayload(p: Payload) returns (r: Marshalled)
    ensures r != ExceedsAfterTruncation
    ensures r.Marshalled? ==> EncodedSize(r.payload) <= 20000
    ensures EncodedSize(p) <= 20000 ==> r == Marshalled(p)
    ensures r == Exceeds <==> && EncodedSize(p) > MAX_PAYLOAD
                              && (p.msgType == MARKDOWN ==> EncodedSize(p.(markdown := NOTICE)) > MAX_PAYLOAD)
                              && (p.msgType == TEXT ==> EncodedSize(p.(text := NOTICE)) > MAX_PAYLOAD)
    ensures EncodedSize(p) > MAX_PAYLOAD && r.Marshalled? ==>
              || (p.msgType == MARKDOWN
                  && exists best: seq<Byte> :: r.payload == p.(markdown := best) && IsBestCut(p, p.markdown, best))
              || (p.msgType == TEXT
                  && exists best: seq<Byte> :: r.payload == p.(text := best) && IsBestCut(p, p.text, best))
  {
    hide EncodedSize, TrimNewlines, IsBestCut;
    if EncodedSize(p) <= MAX_PAYLOAD {
      return Marshalled(p);
    }
    WithBodySets(p, NOTICE);
    var trimmed := p;
    if p.msgType == MARKDOWN {
      var text, ok := TruncatePayloadString(p.markdown, p);
      if !ok {
        return Exceeds;
      }
      BestCutFits(p, p.markdown, text);
      WithBodySets(p, text);
      trimmed := p.(markdown := text);
    } else if p.msgType == TEXT {
      var text, ok := TruncatePayloadString(p.text, p);
      if !ok {
        return Exceeds;
      }
      BestCutFits(p, p.text, text);
      WithBodySets(p, text);
      trimmed := p.(text := text);
    } else {
      return Exceeds;
    }
    if EncodedSize(trimmed) > MAX_PAYLOAD {
      return ExceedsAfterTruncation;
    }
    return Marshalled(trimmed);
  }
}
