/** The words server behind its gRPC interface, and the client through which both other services reach it. */
module WordsClient {
  import opened Lists
  import opened Results
  import Words

  const MAX_PHRASE_LEN := 20000

  /** The bytes of a character in UTF-8. */
  function Width(c: char): nat {
    if c < '\U{80}' then 1 else if c < '\U{800}' then 2 else if c < '\U{10000}' then 3 else 4
  }

  /** The length of a phrase as Go counts it. */
  function Bytes(phrase: string): nat {
    if phrase == "" then 0 else Bytes(phrase[..|phrase| - 1]) + Width(phrase[|phrase| - 1])
  }

  /** The width is the least that holds the code point: 7, 11, 16 or 21 bits. */
  lemma WidthHolds(c: char)
    ensures 1 <= Width(c) <= 4 && c as int < Capacity(Width(c))
    ensures forall n :: 1 <= n < Width(c) ==> Capacity(n) <= c as int
  {
  }

  /** How many code points a UTF-8 sequence of at most `n` bytes can encode, per section 3 of RFC 3629. */
  function Capacity(n: int): int {
    if n <= 1 then 0x80 else if n == 2 then 0x800 else if n == 3 then 0x10000 else 0x110000
  }

  /** A phrase has a byte for each ASCII character, and two to four for each other one. */
  lemma {:induction false} BytesBounds(phrase: string)
    ensures |phrase| <= Bytes(phrase) <= 4 * |phrase|
    ensures Bytes(phrase) == |phrase| <==> forall i :: 0 <= i < |phrase| ==> phrase[i] < '\U{80}'
  {
    if phrase != "" {
      BytesBounds(phrase[..|phrase| - 1]);
    }
  }

  lemma {:induction false} BytesConcat(a: string, b: string)
    ensures Bytes(a + b) == Bytes(a) + Bytes(b)
  {
    if b == "" {
      assert a + b == a;
    } else {
      BytesConcat(a, b[..|b| - 1]);
      assert (a + b)[..|a + b| - 1] == a + b[..|b| - 1];
    }
  }

  /**
   The words service as its two clients see it: a phrase that is too long is refused, which the client reports as
   bad arguments; and a call may go unanswered.
   */
  class Client {
    const lang: Words.Language
    /** The phrases sent so far. */
    ghost var exchanges: seq<Exchange<string>>

    constructor (lang: Words.Language)
      ensures this.lang == lang
    {
      this.lang := lang;
      exchanges := [];
    }

    /** The network: whether an answer comes back is not up to the client. */
    method Send(ghost phrase: string) returns (ok: bool)
      modifies this`exchanges
      ensures Asked(old(exchanges), exchanges, phrase, ok)
    {
      ok := *;
      exchanges := exchanges + [Exchange(phrase, ok)];
    }

    method Norm(phrase: string) returns (r: Result<seq<string>>)
      modifies this`exchanges
      ensures Asked(old(exchanges), exchanges, phrase, r != Failure(NormFailed))
      ensures r != Failure(NormFailed) ==>
                if Bytes(phrase) > MAX_PHRASE_LEN then r == Failure(BadArguments) else r.Success?
      ensures r.Success? ==> NoDup(r.value) && ToSet(r.value) == Words.Keywords(lang, phrase)
    {
      var ok := Send(phrase);
      if !ok {
        return Failure(NormFailed);
      }
      if Bytes(phrase) > MAX_PHRASE_LEN {
        return Failure(BadArguments);
      }
      var words := Words.Norm(lang, phrase);
      return Success(words);
    }
  }
}
