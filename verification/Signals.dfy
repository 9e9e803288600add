/** The signal files: one per agent, present or not. Other processes share the
    directory, so what they leave there between two polls is an input. */
module Signals {

  /** One pass of the polling loop: the clock reading of its test and the files
      present when `exists()` runs. */
  datatype Tick = Tick(now: int, files: set<string>)

  /** The poll at `i` is reached before the deadline and finds the signal. */
  ghost predicate FiresAt(ticks: seq<Tick>, start: int, timeout: int, agent: string, i: nat) {
    i < |ticks| && agent in ticks[i].files && forall j :: 0 <= j <= i ==> ticks[j].now < start + timeout
  }

  class SignalDir {
    var files: set<string>

    constructor (present: set<string>)
      ensures files == present
    {
      files := present;
    }

    /** A file that cannot be written is only logged. */
    method Notify(agent: string, writable: bool)
      modifies this
      ensures files == if writable then old(files) + {agent} else old(files)
    {
      if writable {
        files := files + {agent};
      }
    }

    /** A file that cannot be removed stays. */
    method Clear(agent: string, removable: bool)
      modifies this
      ensures files == if removable then old(files) - {agent} else old(files)
    {
      if removable {
        files := files - {agent};
      }
    }

    /** Fires exactly when the file is there at once or at a poll made before the
        deadline, and takes the file with it if it can. A signal raised after the last
        poll stays for the next call. */
    method Wait(agent: string, start: int, timeout: int, ticks: seq<Tick>, removable: bool)
      returns (fired: bool, polls: nat)
      requires ticks != [] && start + timeout <= ticks[|ticks| - 1].now
      modifies this
      ensures fired <==> agent in old(files) || exists i :: FiresAt(ticks, start, timeout, agent, i)
      ensures fired ==> (agent !in files <==> removable)
      ensures agent in old(files) ==> polls == 0 && files == if removable then old(files) - {agent} else old(files)
      ensures fired && agent !in old(files) ==>
        0 < polls <= |ticks| && FiresAt(ticks, start, timeout, agent, polls - 1)
        && files == (if removable then ticks[polls - 1].files - {agent} else ticks[polls - 1].files)
        && forall j :: 0 <= j < polls - 1 ==> agent !in ticks[j].files
      ensures !fired ==> polls < |ticks| && ticks[polls].now >= start + timeout
    {
      polls := 0;
      if agent in files {
        Clear(agent, removable);
        return true, 0;
      }
      var deadline := start + timeout;
      while ticks[polls].now < deadline
        invariant polls < |ticks|
        invariant forall j :: 0 <= j < polls ==> ticks[j].now < deadline && agent !in ticks[j].files
        decreases |ticks| - polls
      {
        files := ticks[polls].files;
        if agent in files {
          Clear(agent, removable);
          assert FiresAt(ticks, start, timeout, agent, polls);
          return true, polls + 1;
        }
        polls := polls + 1;
      }
      return false, polls;
    }
  }
}
