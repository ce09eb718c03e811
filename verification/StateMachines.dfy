/** The state machine object of a session (session/state.go), proved against the
    machine of module Lifecycle. */
module StateMachines {
  import opened Bytes
  import opened Lifecycle
  import Spec = Lifecycle

  /** The machine as the source keeps it: fields updated in place under one lock. */
  class StateMachine {
    const role: Role
    var state: State
    var pendingLocalBind: Option<Command>
    var pendingPeerBind: Option<Command>
    var localUnbindFrom: State
    var peerUnbindFrom: State

    ghost function View(): (m: Machine)
      reads this
    {
      Machine(role, state, pendingLocalBind, pendingPeerBind, localUnbindFrom, peerUnbindFrom)
    }

    constructor (role: Role)
      ensures this.role == role && View() == Spec.Close(Spec.Opened(role))
    {
      this.role := role;
      state := Closed;
      pendingLocalBind, pendingPeerBind := None, None;
      localUnbindFrom, peerUnbindFrom := Closed, Closed;
    }

    method Open() returns (ok: bool)
      modifies this
      ensures ok == old(state).Closed?
      ensures View() == if ok then old(View()).(state := State.Open) else old(View())
    {
      ok := state == Closed;
      if ok {
        state := State.Open;
      }
    }

    method MarkOutbound() returns (ok: bool)
      modifies this
      ensures ok == old(state).Open?
      ensures View() == Spec.MarkOutbound(old(View()))
    {
      ok := state == State.Open;
      if ok {
        state := Outbound;
      }
    }

    method BeginOutbound(c: Command) returns (ok: bool)
      modifies this
      ensures ok == AcceptsOutbound(old(View()), c)
      ensures View() == Spec.BeginOutbound(old(View()), c)
    {
      if !CanIssue(state, role, c) {
        return false;
      }
      if IsBind(c) {
        if pendingLocalBind != None {
          return false;
        }
        pendingLocalBind := Some(c);
      }
      if c == Unbind {
        localUnbindFrom := state;
        state := Unbound;
      }
      if c == Outbind {
        state := Outbound;
      }
      return true;
    }

    method CancelOutbound(c: Command)
      modifies this
      ensures View() == Spec.CancelOutbound(old(View()), c)
    {
      if IsBind(c) && pendingLocalBind == Some(c) {
        pendingLocalBind := None;
      }
      if c == Unbind && state == Unbound && localUnbindFrom != Closed {
        state := localUnbindFrom;
        localUnbindFrom := Closed;
      }
      if c == Outbind && state == Outbound {
        state := State.Open;
      }
    }

    method CompleteOutbound(c: Command, ok: bool)
      modifies this
      ensures View() == Spec.CompleteOutbound(old(View()), c, ok)
    {
      if IsBind(c) {
        if pendingLocalBind != Some(c) {
          return;
        }
        pendingLocalBind := None;
        if ok {
          state := BoundState(c);
        }
        return;
      }
      if c == Unbind && state == Unbound {
        if ok {
          state := Closed;
        } else if localUnbindFrom != Closed {
          state := localUnbindFrom;
        }
        localUnbindFrom := Closed;
      }
    }

    method BeginInbound(c: Command) returns (ok: bool)
      modifies this
      ensures ok == AcceptsInbound(old(View()), c)
      ensures View() == Spec.BeginInbound(old(View()), c)
    {
      if !CanIssue(state, role.Peer(), c) {
        return false;
      }
      if IsBind(c) {
        if pendingPeerBind != None {
          return false;
        }
        pendingPeerBind := Some(c);
      }
      if c == Unbind {
        peerUnbindFrom := state;
        state := Unbound;
      }
      if c == Outbind {
        state := Outbound;
      }
      return true;
    }

    method CompleteInbound(c: Command, ok: bool)
      modifies this
      ensures View() == Spec.CompleteInbound(old(View()), c, ok)
    {
      if IsBind(c) {
        if pendingPeerBind != Some(c) {
          return;
        }
        pendingPeerBind := None;
        if ok {
          state := BoundState(c);
        }
        return;
      }
      if c == Unbind && state == Unbound {
        if ok {
          state := Closed;
        } else if peerUnbindFrom != Closed {
          state := peerUnbindFrom;
        }
        peerUnbindFrom := Closed;
      }
    }

    method CancelInbound(c: Command)
      modifies this
      ensures View() == Spec.CancelInbound(old(View()), c)
    {
      if IsBind(c) && pendingPeerBind == Some(c) {
        pendingPeerBind := None;
      }
      if c == Unbind && state == Unbound && peerUnbindFrom != Closed {
        state := peerUnbindFrom;
        peerUnbindFrom := Closed;
      }
    }

    method Close()
      modifies this
      ensures View() == Spec.Close(old(View()))
    {
      pendingLocalBind, pendingPeerBind := None, None;
      localUnbindFrom, peerUnbindFrom := Closed, Closed;
      state := Closed;
    }
  }
}
