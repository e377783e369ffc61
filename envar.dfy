/**
 * The configuration the pipeline reads from the environment at startup, as plain
 * values with the documented defaults. Reading the environment itself, `strconv.Atoi`
 * and `log.Fatalf` are not part of this model: a deployment is one `Settings` value.
 */
module Envar {

  const DefaultPacketDropExpirationMinutes := 10
  const DefaultRepeatedEventIntervalMinutes := 2
  const DefaultPodIdentifier := "namespace"
  const DefaultKubeEventDisplayReason := "PacketDrop"

  /** Times are integer nanoseconds, the unit of Go's `time.Duration`. */
  const NanosPerMinute := 60_000_000_000

  datatype Settings = Settings(
    packetDropExpirationMinutes: int,
    repeatedEventIntervalMinutes: int,
    podIdentifier: string,
    podIdentifierLabel: string,
    kubeEventDisplayReason: string)

  /** The settings of a deployment that sets none of the optional variables. */
  const Defaults := Settings(
    DefaultPacketDropExpirationMinutes,
    DefaultRepeatedEventIntervalMinutes,
    DefaultPodIdentifier,
    "",
    DefaultKubeEventDisplayReason)
}
