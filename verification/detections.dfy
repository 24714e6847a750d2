/** The records the detector produces. In the bot these are dictionaries whose `priority` entry
    is present only for monster templates; here it is an explicit Option, and the category that
    the bot inferred by comparing template lists is carried as an explicit tag. */
module Detections {
  import opened Wrappers
  import opened Geometry

  datatype Kind = Monsters | Ropes | Platforms | Unknown

  /** Top-left corner and size of the scaled template at the match location. */
  datatype Box = Box(x: int, y: int, w: int, h: int)

  /** One template match: `position` is the centre of `box`, `scale` is in tenths (8 = 0.8). */
  datatype Detection = Detection(
    name: string,
    pos: Pos,
    box: Box,
    confidence: real,
    scale: nat,
    kind: Kind,
    priority: Option<int>)

  /** Priority assumed for a detection that carries none (`m.get('priority', 5)`). */
  const DefaultPriority: int := 5

  function PriorityOf(d: Detection): int {
    d.priority.GetOr(DefaultPriority)
  }

  /** Sort key of the duplicate filter. */
  function Confidence(d: Detection): real {
    d.confidence
  }
}
