/**
  The in-memory network the scenario-preparation passes read and write.  The
  modelling platform's network object is treated as a plain value: a pass takes
  a network and returns the updated one, which the caller publishes back.
*/
module Network {
  import opened Wrappers

  /** A network node: id, projected coordinates, its "@maz_id" (0 when it is no
      zone centroid) and whether the platform flags it as a centroid. */
  datatype Node = Node(id: int, x: real, y: real, mazId: int, isCentroid: bool)

  /**
    A link with the attributes the passes use.  `linkId` is "#link_id", `ft`
    "@ft", `cntype` "#cntype", `walkLink` "@walk_link" (non-zero is true);
    `areaType`, `capclass`, `freeFlowSpeed`, `freeFlowTime` and `tranTime` are
    the derived extra attributes, `modes` the set of mode ids allowed on it.
  */
  datatype Link = Link(
    linkId: int,
    i: Node,
    j: Node,
    ft: int,
    length: real,
    cntype: string,
    walkLink: real,
    areaType: int,
    capclass: int,
    freeFlowSpeed: real,
    freeFlowTime: real,
    tranTime: real,
    modes: set<char>)

  /** Assignment type of a mode. */
  datatype ModeType = Auto | AuxAuto | Transit | AuxTransit

  datatype Mode = Mode(modeType: ModeType, description: string, speed: real)

  datatype TransitVehicle = TransitVehicle(
    mode: char, autoEquivalent: real, seatedCapacity: int, totalCapacity: int)

  /**
    A transit line: "#mode" names the vehicle id it needs, "#time_period" the
    period it runs in; each segment is given by the index of the link it runs on;
    `vehicle` is the vehicle assigned to the line.
  */
  datatype TransitLine = TransitLine(
    id: string, vehicleCode: int, timePeriod: string, segments: seq<nat>, vehicle: Option<int>)

  datatype Network = Network(
    nodes: seq<Node>,
    links: seq<Link>,
    modes: map<char, Mode>,
    vehicles: map<int, TransitVehicle>,
    lines: seq<TransitLine>)
}
