/** The statically configured constants of the survey page. */
module Config {

  /** Repository that holds the images. */
  const GITHUB_OWNER: string := "littledoor-ai"
  const GITHUB_REPO: string := "survey-project"
  const GITHUB_BRANCH: string := "main"
  const GITHUB_PATH: string := "images"

  /** Number of images a participant rates in one session. */
  const SAMPLE_SIZE: nat := 100

  /** Bounds of the ordinal rating scale (inclusive). */
  const SCALE_MIN: int := 1
  const SCALE_MAX: int := 5

  /** One rating dimension; `title` is the label shown above its scale. */
  datatype Criterion = Criterion(id: string, title: string, description: string)

  /** The ordered list of criteria every image is rated on. */
  const EVALUATION_ITEMS: seq<Criterion> := [
    Criterion("vitality", "활력", "활기차고 생동감 있는 정도"),
    Criterion("beauty", "아름다움", "미적으로 아름다운 정도"),
    Criterion("safety", "안전", "교통사고 위험이 적은 정도"),
    Criterion("walkability", "보행친화", "보행하기 편한 정도"),
    Criterion("connectivity", "연결", "다양한 목적지로 잘 연결된 정도"),
    Criterion("complexity", "복잡", "시각적으로 복잡한 정도"),
    Criterion("greenery", "녹지친화", "자연과 녹지가 충분한 정도")
  ]

  /** The set of criterion ids. */
  function ItemIds(): set<string>
  {
    set i | 0 <= i < |EVALUATION_ITEMS| :: EVALUATION_ITEMS[i].id
  }

  /** A score that a radio button of the scale can carry. */
  predicate InScale(score: int)
  {
    SCALE_MIN <= score <= SCALE_MAX
  }
}
