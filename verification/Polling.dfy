// What `consumer.poll` comes back with.
module Polling {
  datatype Polled = Nothing | Message(partition: nat) | EndOfPartition | BrokerError
}
