/** The lesser of two numbers, std::min. */
module Numbers {
  function Min(a: int, b: int): int {
    if a < b then a else b
  }
}

/** The versions of the protocol as the source numbers them. */
module ProtocolVersions {
  const MQTT_NONE: nat := 0
  const MQTT_311: nat := 4
  const MQTT_5: nat := 5
}
