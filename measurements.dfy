/** The sensor messages of the measurement data sink: one reading and the
    liveness message. Their JSON codec is not part of this model. */
module Measurements {

  /** How the sensor feels; carried along, never aggregated. */
  datatype Mood = Good | CouldBeBetter | Meh | Bad(reason: string)

  /** One sensor reading. `f64` fields are modelled as reals. */
  datatype Measurement = Measurement(
    nodeId: nat,
    roomId: nat,
    temperature: real,
    relHumidity: real,
    fires: nat,
    mood: Mood)

  /** The heartbeat the server sends back to a sensor. */
  datatype KeepAlive = KeepAlive(everythingIsFine: bool)
}
