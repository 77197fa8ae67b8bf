/** The bytes of what the framing loop itself says, as part of the stream to the client. */
module Replies {
  import opened Wrappers
  import opened Wire
  import opened Framing
  import opened Sessions
  import opened Outbox

  function MsgsOf(r: Reply): seq<Msg> {
    match r
    case SslRefused => []
    case StartupComplete => STARTUP_MSGS
    case ExtendedRejected => REFUSAL
  }

  function BytesOf(r: Reply): Bytes {
    if r == SslRefused then [SSL_REFUSED] else EncodeAll(MsgsOf(r))
  }

  function AllMsgs(rs: seq<Reply>): seq<Msg> {
    if rs == [] then [] else MsgsOf(rs[0]) + AllMsgs(rs[1..])
  }

  function AllBytes(rs: seq<Reply>): Bytes {
    if rs == [] then [] else BytesOf(rs[0]) + AllBytes(rs[1..])
  }

  /** Replies in the order the loop gives them are single N bytes and then whole messages. */
  lemma {:induction false} RepliesFramed(rs: seq<Reply>) returns (k: nat)
    requires SslFirst(rs)
    ensures AllBytes(rs) == Framed(k, AllMsgs(rs))
  {
    k := 0;
    if rs != [] {
      var rest := rs[1..];
      assert SslFirst(rest);
      var n := RepliesFramed(rest);
      if rs[0] == SslRefused {
        k := n + 1;
        Assoc([SSL_REFUSED], Refusals(n), EncodeAll(AllMsgs(rest)));
        assert AllMsgs(rs) == AllMsgs(rest);
      } else {
        NoMoreSsl(rest);
        EncodeAllConcat(MsgsOf(rs[0]), AllMsgs(rest));
      }
    }
  }

  lemma {:induction false} NoMoreSsl(rs: seq<Reply>)
    requires forall i :: 0 <= i < |rs| ==> rs[i] != SslRefused
    ensures AllBytes(rs) == EncodeAll(AllMsgs(rs))
  {
    if rs != [] {
      NoMoreSsl(rs[1..]);
      EncodeAllConcat(MsgsOf(rs[0]), AllMsgs(rs[1..]));
    }
  }
}
