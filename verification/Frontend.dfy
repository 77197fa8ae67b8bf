/** fe_protocol_process: the loop over the receive buffer, as it runs, in every state of the session. */
module Frontend {
  import opened Wrappers
  import opened Wire
  import opened Framing

  /** How the loop ends: wait for more input, close the session, run a query, or spin forever. */
  datatype Verdict = Wait | Close | Ask(text: Option<Bytes>) | Hang

  /** The text of a query is read from the buffer after the shift; the packet whose length wraps gives none. */
  function VerdictOf(f: Front): Verdict {
    match f.status
    case Open => Wait
    case Closed => Close
    case Hung => Hang
    case Asked(p) => Ask(if |p| < 5 then None else TextSeen(p + f.recv, |p|))
  }

  class Frontend {
    var state: State
    var recv: Bytes
    var forwarded: seq<CopyCmd>
    var replies: seq<Reply>
    ghost var consumed: seq<Bytes>

    ghost function View(): Front
      reads this
    {
      Front(state, recv, consumed, forwarded, replies, Open)
    }

    /** The fields are those of f, and v is how f ended. */
    ghost predicate EndsAs(f: Front, v: Verdict)
      reads this
    {
      View() == f.(status := Open) && v == VerdictOf(f)
    }

    /** memmove: drops the first n bytes. */
    method Shift(n: nat)
      requires n <= |recv|
      modifies this`recv, this`consumed
      ensures View() == Drop(old(View()), n)
    {
      if n > 0 {
        consumed := consumed + [recv[..n]];
      }
      recv := recv[n..];
    }

    /** handle_startup_message: false closes the session. */
    method HandleStartup(len: nat) returns (ok: bool)
      requires StartupOf(recv) == Whole(len)
      modifies this
      ensures EndsAs(StartupTurn(old(View()), len), if ok then Wait else Close)
    {
      if len < 8 {
        return false;
      }
      var version := U32(recv[4..]);
      if version == SSL_REQUEST {
        replies := replies + [SslRefused];
        Shift(len);
        return true;
      }
      if version == CANCEL_REQUEST {
        Shift(len);
        return false;
      }
      if version / 0x1_0000 != 3 {
        return false;
      }
      Shift(len);
      replies := replies + [StartupComplete];
      state := READY;
      return true;
    }

    /** copy_handle_client_message and what the loop does with its return code; Wait means the loop goes on. */
    method HandleCopy(total: nat, ok: nat -> bool) returns (v: Verdict)
      requires HeadOf(recv) == Whole(total)
      modifies this
      ensures EndsAs(CopyTurn(old(View()), total, ok), v)
    {
      var cmd := CopyCommand(recv[0], if total == 0 then [] else recv[5..total]);
      if cmd.None? {
        Shift(total);
        return if total == 0 then Hang else Wait;
      }
      var accepted := ok(|forwarded|);
      if accepted {
        forwarded := forwarded + [cmd.value];
      }
      Shift(total);
      if !accepted {
        return Close;
      }
      if !cmd.value.Put? {
        state := QUERY;
      } else if total == 0 {
        return Hang;
      }
      return Wait;
    }

    /** The text is a pointer into the buffer that is shifted next. */
    method TakeQuery(total: nat) returns (v: Verdict)
      requires HeadOf(recv) == Whole(total)
      modifies this
      ensures EndsAs(Drop(old(View()), total).(status := Asked(old(recv)[..total])), v)
    {
      assert total > 0 ==> total >= 5;
      assert recv == recv[..total] + recv[total..];
      v := Ask(if total == 0 then None else TextSeen(recv, total));
      Shift(total);
    }

    /** One message of a client that has no request outstanding; Wait means the loop goes on. */
    method HandleMessage(total: nat) returns (v: Verdict)
      requires HeadOf(recv) == Whole(total)
      modifies this
      ensures EndsAs(ReadyTurn(old(View()), total), v)
    {
      var t := recv[0];
      if t == QUERY_MSG {
        v := TakeQuery(total);
        return;
      }
      if t == TERMINATE {
        return Close;
      }
      if t in EXTENDED {
        replies := replies + [ExtendedRejected];
      }
      Shift(total);
      return if total == 0 then Hang else Wait;
    }

    method Process(ok: nat -> bool) returns (v: Verdict)
      modifies this
      ensures EndsAs(Loop(old(View()), ok), v)
    {
      while |recv| > 0
        invariant Loop(View(), ok) == Loop(old(View()), ok)
        decreases |recv|, Active(View())
      {
        if state == INIT {
          match StartupOf(recv) {
            case Short => return Wait;
            case Bad => return Close;
            case Whole(len) =>
              var fine := HandleStartup(len);
              if !fine {
                return Close;
              }
          }
          continue;
        }
        if state == QUERY || state == SCATTER || state == COPY_OUT {
          return Wait;
        }
        var head := HeadOf(recv);
        if head.Short? {
          return Wait;
        }
        if head.Bad? {
          return Close;
        }
        if state == COPY_IN {
          v := HandleCopy(head.total, ok);
        } else {
          v := HandleMessage(head.total);
        }
        if v != Wait {
          return;
        }
      }
      return Wait;
    }

    /** session_on_client_readable: bytes arrive and are processed. */
    method OnClientReadable(chunk: Bytes, ok: nat -> bool) returns (v: Verdict)
      requires Cut(consumed)
      modifies this
      ensures EndsAs(Loop(Receive(old(View()), chunk), ok), v)
      // every byte ever received is in a whole packet that was taken out or still in the buffer
      ensures Stream(View()) == old(Stream(View())) + chunk && Cut(consumed)
    {
      ghost var f := Receive(View(), chunk);
      Assoc(Concat(consumed), recv, chunk);
      LoopConserves(f, ok);
      recv := recv + chunk;
      assert View() == f;
      v := Process(ok);
    }
  }
}
