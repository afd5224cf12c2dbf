/** The parameter records and enumerations a colony can be configured with. */
module Params {

  /** `FontSize`: one size per text element. */
  datatype FontSize = FontSize(title: int, xlabel: int, ylabel: int, xticks: int, yticks: int, legend: int)

  /** `Spine`: which of the four spines are drawn. */
  datatype Spine = Spine(top: bool, left: bool, bottom: bool, right: bool)

  /** `Cmap`: the named colour schemes. */
  datatype Cmap = Cozy | Official | BW | Monochrome

  /** `Marker`: the named marker sets. */
  datatype Marker = NoMarker | Simple | Distant | Shapes
}
