/** The LMT worker as it keeps its dictionaries, proved step by step against module LmtRegistry. */
module LmtWorker {
  import opened Options
  import opened LmtRegistry
  import Registry = LmtRegistry
  import Strings

  /** The broker's side: channels are numbered as they are opened. */
  class Broker {
    var total: nat
    var disposed: set<nat>

    constructor ()
      ensures total == 0 && disposed == {}
    {
      total, disposed := 0, {};
    }

    method CreateChannel() returns (channel: nat)
      modifies this
      ensures channel == old(total) && total == old(total) + 1 && disposed == old(disposed)
    {
      channel := total;
      total := total + 1;
    }

    method Dispose(channel: nat)
      modifies this
      ensures total == old(total) && disposed == old(disposed) + {channel}
    {
      disposed := disposed + {channel};
    }
  }

  class Worker {
    const broker: Broker
    var serviceCache: set<string>
    var logChannels: map<string, nat>
    var traceChannels: map<string, nat>
    var logConsumerTags: map<string, nat>
    var traceConsumerTags: map<string, nat>

    ghost function State(): Registry.State
      reads this, broker
    {
      Registry.State.State(
        serviceCache, Consumers(logChannels, logConsumerTags), Consumers(traceChannels, traceConsumerTags),
        broker.total, broker.disposed)
    }

    constructor ()
      ensures State() == INITIAL && fresh(broker)
    {
      broker := new Broker();
      serviceCache, logChannels, traceChannels, logConsumerTags, traceConsumerTags := {}, map[], map[], map[], map[];
    }

    /** Starts a consumer; a failing broker call is logged and swallowed, and a channel opened by then is forgotten. */
    method StartConsumer(id: string, isLogs: bool, fault: Option<BrokerCall>)
      modifies this, broker
      ensures State() == Start(old(State()), id, isLogs, fault)
    {
      var channelMap := if isLogs then logChannels else traceChannels;
      if id in channelMap || fault == Some(Connect) || fault == Some(CreateChannel) {
        return;
      }
      var channel := broker.CreateChannel();
      if fault.Some? {
        return;
      }
      if isLogs {
        logChannels := logChannels[id := channel];
        if id !in logConsumerTags { logConsumerTags := logConsumerTags[id := channel]; }
      } else {
        traceChannels := traceChannels[id := channel];
        if id !in traceConsumerTags { traceConsumerTags := traceConsumerTags[id := channel]; }
      }
    }

    /** Stops a consumer; it is out of both maps before the broker is asked, which may throw. */
    method StopConsumer(id: string, isLogs: bool, course: StopCourse) returns (threw: bool)
      modifies this, broker
      ensures State() == Stop(old(State()), id, isLogs, course)
      ensures threw == (Stops(old(State()), id, isLogs) && course.Throws())
    {
      var channelMap := if isLogs then logChannels else traceChannels;
      var consumerTagMap := if isLogs then logConsumerTags else traceConsumerTags;
      if id !in consumerTagMap {
        return false;
      }
      if isLogs {
        logConsumerTags, logChannels := logConsumerTags - {id}, logChannels - {id};
      } else {
        traceConsumerTags, traceChannels := traceConsumerTags - {id}, traceChannels - {id};
      }
      if id !in channelMap {
        return false;
      }
      if course.isOpen {
        if course.cancelFails {
          return true;
        }
      }
      broker.Dispose(channelMap[id]);
      threw := false;
    }

    method HandleServiceActivity(
      content: Option<Update>, logsFault: Option<BrokerCall>, tracesFault: Option<BrokerCall>,
      logsStop: StopCourse, tracesStop: StopCourse)
      modifies this, broker
      ensures State() == Step(old(State()), Message(content, logsFault, tracesFault, logsStop, tracesStop))
    {
      if content.None? || Strings.IsBlank(content.value.serviceId) {
        return;
      }
      var id := content.value.serviceId;
      if content.value.action == "add" {
        serviceCache := serviceCache + {id};
        StartConsumer(id, true, logsFault);
        StartConsumer(id, false, tracesFault);
      } else if content.value.action == "remove" {
        serviceCache := serviceCache - {id};
        var threw := StopConsumer(id, true, logsStop);
        if threw {
          return;
        }
        threw := StopConsumer(id, false, tracesStop);
      }
    }

    method LoadServicesFromDb(services: Option<seq<Option<string>>>, faults: Faults)
      modifies this, broker
      ensures State() == Step(old(State()), Load(services, faults))
    {
      if !Loads(services) {
        return;
      }
      var ids := services.value;
      for i := 0 to |ids|
        invariant State() == LoadFrom(old(State()), ids[..i], faults)
      {
        assert ids[..i + 1][..i] == ids[..i];
        serviceCache := serviceCache + {ids[i].value};
        StartConsumer(ids[i].value, true, faults(i).0);
        StartConsumer(ids[i].value, false, faults(i).1);
      }
      assert ids[..|ids|] == ids;
    }

    /**
     Closes and disposes the registered channels, in the order the dictionaries list them, until closing one
     fails. The maps stay as they are.
     */
    method StopAsync(logs: seq<nat>, traces: seq<nat>, failing: set<nat>) returns (threw: bool)
      requires Lists(logs, logChannels) && Lists(traces, traceChannels)
      modifies broker
      ensures State() == Shutdown(old(State()), logs, traces, failing)
      ensures threw <==> CloseFails(State(), failing)
    {
      CloseAllCloses(broker.disposed, logs + traces, failing);
      CloseAllAppend(broker.disposed, logs, traces, failing);
      threw := DisposeAll(logs, failing);
      if !threw {
        threw := DisposeAll(traces, failing);
      }
    }

    method DisposeAll(channels: seq<nat>, failing: set<nat>) returns (threw: bool)
      modifies broker
      ensures broker.total == old(broker.total)
      ensures (broker.disposed, threw) == CloseAll(old(broker.disposed), channels, failing)
    {
      for i := 0 to |channels|
        invariant broker.total == old(broker.total)
        invariant CloseAll(old(broker.disposed), channels, failing)
                  == CloseAll(broker.disposed, channels[i..], failing)
      {
        if channels[i] in failing {
          return true;
        }
        broker.Dispose(channels[i]);
      }
      threw := false;
    }
  }
}
